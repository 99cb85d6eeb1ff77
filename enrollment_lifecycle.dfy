/**
 * The program-enrollment screen: one patient's enrollment rows, keyed by
 * program id, and the form state of the page, with every handler as a pure
 * transition on that state.
 *
 * A row's status column is a nullable string: "enrolled", "ongoing" or
 * "completed", and null for a rejected program. The handlers themselves do not
 * check whether a change makes sense; only the page decides which controls to
 * draw. So a user-visible step is "the control is offered" and then "the
 * handler runs" (Offered, Step).
 *
 * A write to the store either succeeds or fails as a whole (the flag `ok`);
 * a failed write changes nothing, because the handler catches the error and
 * logs it. After every successful write the page reloads its rows, so the
 * page's list is the store's table.
 */
module EnrollmentLifecycle {
  import opened Wrappers
  import opened CalendarDates
  import opened Records

  /** The instant written into updated_at (new Date().toISOString()). */
  type Instant = int

  /** An enrollments row for the signed-in patient. */
  datatype Enrollment = Enrollment(
    programId: string,
    status: Option<string>,
    completionDate: Option<string>,
    updatedAt: Option<Instant>)   // None: the store's default, set on insert

  /** The patient's rows; (user_id, program_id) is unique, so one per program. */
  type Table = map<string, Enrollment>

  /** What a status column means. */
  datatype Stage = Enrolled | Ongoing | Completed | Rejected | Unrecognised

  function StageOf(status: Option<string>): (st: Stage)
    ensures st == Rejected <==> status.None?
    ensures st == Completed <==> status == Some("completed")
    ensures st == Ongoing <==> status == Some("ongoing")
    ensures st == Enrolled <==> status == Some("enrolled")
  {
    match status
    case None => Rejected
    case Some(s) =>
      if s == "enrolled" then Enrolled
      else if s == "ongoing" then Ongoing
      else if s == "completed" then Completed
      else Unrecognised
  }

  /** Completed and rejected programs offer no further change. */
  predicate IsTerminal(st: Stage) {
    st == Completed || st == Rejected
  }

  /** The page's state: the rows, the drug record and the form fields. */
  datatype PageState = PageState(
    enrollments: Table,
    patientDrug: Option<PatientDrug>,
    selectedProgramId: Option<string>,
    enrollNow: bool,
    completedCheck: bool,
    statusSelection: string,
    showDatePicker: bool,
    completionDate: string,
    showCostSummary: map<string, bool>)

  /** getEnrollmentForProgram: the row for the program, if the patient has one. */
  function EnrollmentFor(t: Table, programId: string): (r: Option<Enrollment>)
    ensures r.Some? <==> programId in t
    ensures r.Some? ==> r.value == t[programId]
  {
    if programId in t then Some(t[programId]) else None
  }

  /** Whether a program's cost summary is open; a missing key reads as closed. */
  function SummaryOpen(flags: map<string, bool>, programId: string): bool {
    programId in flags && flags[programId]
  }

  // ---------------------------------------------------------------------
  // Store writes

  /** An insert; it fails on a store error and on a second row for the same program. */
  function Insert(t: Table, row: Enrollment, ok: bool): (r: Option<Table>)
    ensures r.Some? <==> ok && row.programId !in t
    ensures r.Some? ==> r.value.Keys == t.Keys + {row.programId} && r.value[row.programId] == row &&
                        forall id :: id in t ==> r.value[id] == t[id]
  {
    if !ok || row.programId in t then None
    else Some(t[row.programId := row])
  }

  /** Every row is filed under its own program id, as the page's lookups by program_id take for granted. */
  predicate WellKeyed(t: Table) {
    forall id :: id in t ==> t[id].programId == id
  }

  /** The new status column written by handleStatusChange: null for "rejected". */
  function StatusColumn(status: string): (r: Option<string>)
    ensures r.None? <==> status == "rejected"
    ensures r.Some? ==> r.value == status
  {
    if status == "rejected" then None else Some(status)
  }

  // ---------------------------------------------------------------------
  // Handlers

  /** handleProgramSelect: open the program, or close it if open, and clear the form. */
  function SelectProgram(s: PageState, programId: string): (r: PageState)
    ensures r.enrollments == s.enrollments && r.patientDrug == s.patientDrug
  {
    s.(selectedProgramId := if s.selectedProgramId == Some(programId) then None else Some(programId),
       enrollNow := false,
       completedCheck := false,
       statusSelection := "",
       showDatePicker := false,
       completionDate := "")
  }

  /** The Enroll Now checkbox. */
  function ToggleEnrollNow(s: PageState): (r: PageState)
    ensures r.enrollments == s.enrollments && r.patientDrug == s.patientDrug
  {
    s.(enrollNow := !s.enrollNow)
  }

  /**
   * handleEnrollNow: insert an "enrolled" row. The portal tab and the delayed
   * logout that follow are browser effects outside this model.
   */
  function EnrollNow(s: PageState, user: Option<string>, programId: string, ok: bool): (r: PageState)
    ensures s.enrollments.Keys <= r.enrollments.Keys <= s.enrollments.Keys + {programId}
    ensures forall id :: id in s.enrollments ==> r.enrollments[id] == s.enrollments[id]
  {
    if user.None? then s
    else
      match Insert(s.enrollments, Enrollment(programId, Some("enrolled"), None, None), ok)
      case None => s
      case Some(t) => s.(enrollments := t)
  }

  /**
   * The Ongoing checkbox with no row yet: it is drawn checked only when the
   * selection is "ongoing", and a click that checks it inserts an "ongoing" row.
   * Without a user, reading user.id throws inside the handler's try.
   */
  function ClickOngoing(s: PageState, user: Option<string>, programId: string, ok: bool): (r: PageState)
    ensures s.enrollments.Keys <= r.enrollments.Keys <= s.enrollments.Keys + {programId}
    ensures forall id :: id in s.enrollments ==> r.enrollments[id] == s.enrollments[id]
  {
    var checked := s.statusSelection != "ongoing";
    if !checked || user.None? then s
    else
      match Insert(s.enrollments, Enrollment(programId, Some("ongoing"), None, None), ok)
      case None => s
      case Some(t) => s.(enrollments := t)
  }

  /** The Rejected checkbox with no row yet: a click that checks it inserts a row with a null status. */
  function ClickRejected(s: PageState, user: Option<string>, programId: string, ok: bool): (r: PageState)
    ensures s.enrollments.Keys <= r.enrollments.Keys <= s.enrollments.Keys + {programId}
    ensures forall id :: id in s.enrollments ==> r.enrollments[id] == s.enrollments[id]
  {
    var checked := s.statusSelection != "rejected";
    if !checked || user.None? then s
    else
      match Insert(s.enrollments, Enrollment(programId, None, None, None), ok)
      case None => s
      case Some(t) => s.(enrollments := t)
  }

  /** The Completed checkbox: checking it shows the date picker, unchecking hides it and clears the date. */
  function ClickCompleted(s: PageState): (r: PageState)
    ensures r.enrollments == s.enrollments && r.patientDrug == s.patientDrug
  {
    if !s.completedCheck then s.(completedCheck := true, showDatePicker := true)
    else s.(completedCheck := false, showDatePicker := false, completionDate := "")
  }

  /** Either date input. */
  function EnterCompletionDate(s: PageState, date: string): (r: PageState)
    ensures r.enrollments == s.enrollments && r.patientDrug == s.patientDrug
  {
    s.(completionDate := date)
  }

  /** The Submit under the Completed checkbox: insert a "completed" row with the entered date. */
  function SubmitNewCompletion(s: PageState, user: Option<string>, programId: string, ok: bool): (r: PageState)
    ensures s.enrollments.Keys <= r.enrollments.Keys <= s.enrollments.Keys + {programId}
    ensures forall id :: id in s.enrollments ==> r.enrollments[id] == s.enrollments[id]
  {
    if user.None? || s.completionDate == "" then s
    else
      match Insert(s.enrollments, Enrollment(programId, Some("completed"), Some(s.completionDate), None), ok)
      case None => s
      case Some(t) => s.(enrollments := t, showDatePicker := false, completionDate := "", completedCheck := false)
  }

  /**
   * handleStatusChange: nothing without a user or a row; "completed" only opens
   * the date picker; any other status is written (null for "rejected") with a
   * fresh updated_at, and the selection is cleared.
   */
  function StatusChange(s: PageState, user: Option<string>, programId: string, status: string,
                        now: Instant, ok: bool): (r: PageState)
    ensures r.enrollments.Keys == s.enrollments.Keys
    ensures forall id :: id in s.enrollments && id != programId ==> r.enrollments[id] == s.enrollments[id]
  {
    if user.None? || programId !in s.enrollments then s
    else if status == "completed" then s.(statusSelection := status, showDatePicker := true)
    else if !ok then s
    else
      var row := s.enrollments[programId];
      s.(enrollments := s.enrollments[programId := row.(status := StatusColumn(status), updatedAt := Some(now))],
         statusSelection := "")
  }

  /** handleCompletionSubmit: mark the existing row completed on the entered date. */
  function CompletionSubmit(s: PageState, user: Option<string>, programId: string, now: Instant, ok: bool)
    : (r: PageState)
    ensures r.enrollments.Keys == s.enrollments.Keys
    ensures forall id :: id in s.enrollments && id != programId ==> r.enrollments[id] == s.enrollments[id]
  {
    if user.None? || s.completionDate == "" then s
    else if programId !in s.enrollments || !ok then s
    else
      var row := s.enrollments[programId];
      var row' := row.(status := Some("completed"), completionDate := Some(s.completionDate), updatedAt := Some(now));
      s.(enrollments := s.enrollments[programId := row'],
         showDatePicker := false, completionDate := "", statusSelection := "")
  }

  /** toggleCostSummary: flip the program's flag, a missing key counting as closed. */
  function ToggleCostSummary(s: PageState, programId: string): (r: PageState)
    ensures r.enrollments == s.enrollments && r.patientDrug == s.patientDrug
  {
    s.(showCostSummary := s.showCostSummary[programId := !SummaryOpen(s.showCostSummary, programId)])
  }

  /** getDummyRefillDate: the drug's refill date, or fifteen days from today when there is none. */
  function DummyRefillDate(patientDrug: Option<PatientDrug>, today: Date): (d: Date)
    requires ValidDate(today)
    ensures !(patientDrug.Some? && patientDrug.value.refillDate.Some?) ==> ValidDate(d)
  {
    if patientDrug.Some? && patientDrug.value.refillDate.Some? then patientDrug.value.refillDate.value
    else AddDays(today, 15)
  }

  // ---------------------------------------------------------------------
  // What the page offers, and one step of the user

  /** A control the user can operate on the selected program's panel, or a program in the list. */
  datatype Event =
    | SelectEvent(programId: string)
    | EnrollNowBox
    | ProceedButton
    | OngoingBox
    | CompletedBox
    | RejectedBox
    | DateInput(date: string)
    | SubmitNewButton
    | StatusButton(status: string)
    | SubmitCompletionButton
    | CostSummaryButton

  /** The three status buttons. */
  predicate IsStatusButton(status: string) {
    status == "ongoing" || status == "completed" || status == "rejected"
  }

  predicate IsOpen(p: Program) {
    p.programStatus == "open"
  }

  /** The controls drawn for a program with no row, which only an open program has. */
  predicate NewRecordPanel(s: PageState, p: Program)
    ensures NewRecordPanel(s, p) ==> !StatusPanel(s, p) && !RowDatePicker(s, p)
  {
    p.id !in s.enrollments && IsOpen(p)
  }

  /** The status buttons, drawn for an enrolled or ongoing row of an open program. */
  predicate StatusPanel(s: PageState, p: Program)
    ensures StatusPanel(s, p) ==> StageIn(s.enrollments, p.id) in {Some(Enrolled), Some(Ongoing)}
  {
    p.id in s.enrollments && IsOpen(p) &&
    StageOf(s.enrollments[p.id].status) in {Enrolled, Ongoing}
  }

  /** The date picker inside a row's panel, as the page draws it: whenever it is open. */
  predicate RowDatePicker(s: PageState, p: Program)
    ensures RowDatePicker(s, p) ==> StageIn(s.enrollments, p.id).Some?
  {
    p.id in s.enrollments && s.showDatePicker && IsOpen(p)
  }

  /** The same picker, drawn only while the row's status can still be updated. */
  predicate RowDatePickerIntended(s: PageState, p: Program)
    ensures RowDatePickerIntended(s, p) ==>
              RowDatePicker(s, p) && StageIn(s.enrollments, p.id) !in {Some(Completed), Some(Rejected)}
  {
    RowDatePicker(s, p) && StatusPanel(s, p)
  }

  /** The controls of the selected program's panel, given how the row's date picker is decided. */
  predicate PanelOffers(s: PageState, p: Program, e: Event, rowPicker: bool)
    ensures PanelOffers(s, p, e, rowPicker) ==> !e.SelectEvent?
    ensures PanelOffers(s, p, e, rowPicker) && !IsOpen(p) ==>
              e.CostSummaryButton? || (rowPicker && (e.DateInput? || e.SubmitCompletionButton?))
  {
    match e
    case SelectEvent(_) => false
    case EnrollNowBox => NewRecordPanel(s, p)
    case ProceedButton => NewRecordPanel(s, p) && s.enrollNow
    case OngoingBox => NewRecordPanel(s, p)
    case CompletedBox => NewRecordPanel(s, p)
    case RejectedBox => NewRecordPanel(s, p)
    case DateInput(_) => (NewRecordPanel(s, p) && s.showDatePicker && s.completedCheck) || rowPicker
    case SubmitNewButton =>
      NewRecordPanel(s, p) && s.showDatePicker && s.completedCheck && s.completionDate != ""
    case StatusButton(status) => StatusPanel(s, p) && IsStatusButton(status)
    case SubmitCompletionButton => rowPicker && s.completionDate != ""
    case CostSummaryButton =>
      p.id in s.enrollments && s.enrollments[p.id].status == Some("completed") && s.patientDrug.Some?
  }

  /** Any program of the list can be clicked; the panel's controls need the program to be the open one. */
  predicate OfferedWith(s: PageState, p: Program, e: Event, rowPicker: bool)
    ensures OfferedWith(s, p, e, rowPicker) && !e.SelectEvent? ==> s.selectedProgramId == Some(p.id)
  {
    e.SelectEvent? || (s.selectedProgramId == Some(p.id) && PanelOffers(s, p, e, rowPicker))
  }

  /** The controls of renderProgramDetails as written. */
  predicate Offered(s: PageState, p: Program, e: Event)
    ensures Offered(s, p, e) && !IsOpen(p) ==> e.SelectEvent? || e.CostSummaryButton?
  {
    OfferedWith(s, p, e, RowDatePicker(s, p))
  }

  /** The controls with the row's date picker confined to updatable rows. */
  predicate OfferedIntended(s: PageState, p: Program, e: Event)
    ensures OfferedIntended(s, p, e) ==> Offered(s, p, e)
  {
    OfferedWith(s, p, e, RowDatePickerIntended(s, p))
  }

  /** Run the handler of a control of program p's panel. */
  function Step(s: PageState, p: Program, e: Event, user: Option<string>, now: Instant, ok: bool): PageState {
    match e
    case SelectEvent(id) => SelectProgram(s, id)
    case EnrollNowBox => ToggleEnrollNow(s)
    case ProceedButton => EnrollNow(s, user, p.id, ok)
    case OngoingBox => ClickOngoing(s, user, p.id, ok)
    case CompletedBox => ClickCompleted(s)
    case RejectedBox => ClickRejected(s, user, p.id, ok)
    case DateInput(d) => EnterCompletionDate(s, d)
    case SubmitNewButton => SubmitNewCompletion(s, user, p.id, ok)
    case StatusButton(status) => StatusChange(s, user, p.id, status, now, ok)
    case SubmitCompletionButton => CompletionSubmit(s, user, p.id, now, ok)
    case CostSummaryButton => ToggleCostSummary(s, p.id)
  }

  /** The moves of the lifecycle: from no row to any stage, and from enrolled or ongoing to a later one. */
  predicate Allowed(before: Option<Stage>, after: Stage) {
    match before
    case None => after in {Enrolled, Ongoing, Completed, Rejected}
    case Some(st) => st in {Enrolled, Ongoing} && after in {Ongoing, Completed, Rejected}
  }

  function StageIn(t: Table, programId: string): Option<Stage> {
    if programId in t then Some(StageOf(t[programId].status)) else None
  }

  // ---------------------------------------------------------------------
  // Lemmas: the handlers

  /** With no row, each writing control is drawn only for an open program. */
  lemma NewRecordNeedsOpenProgram(s: PageState, p: Program, e: Event)
    requires p.id !in s.enrollments
    requires Offered(s, p, e)
    requires e in {ProceedButton, OngoingBox, RejectedBox, SubmitNewButton}
    ensures IsOpen(p)
  {
  }

  /** Proceed to Enrollment creates exactly one row, "enrolled". */
  lemma EnrollNowCreatesRow(s: PageState, user: Option<string>, p: Program)
    requires user.Some? && p.id !in s.enrollments
    ensures EnrollNow(s, user, p.id, true).enrollments ==
            s.enrollments[p.id := Enrollment(p.id, Some("enrolled"), None, None)]
    ensures EnrollNow(s, user, p.id, true).(enrollments := s.enrollments) == s
  {
  }

  /** The Ongoing box, clicked while unchecked, creates exactly one row, "ongoing". */
  lemma OngoingCreatesRow(s: PageState, user: Option<string>, p: Program)
    requires user.Some? && p.id !in s.enrollments && s.statusSelection != "ongoing"
    ensures ClickOngoing(s, user, p.id, true).enrollments ==
            s.enrollments[p.id := Enrollment(p.id, Some("ongoing"), None, None)]
    ensures ClickOngoing(s, user, p.id, true).(enrollments := s.enrollments) == s
  {
  }

  /** The Rejected box, clicked while unchecked, creates exactly one row, with a null status. */
  lemma RejectedCreatesRow(s: PageState, user: Option<string>, p: Program)
    requires user.Some? && p.id !in s.enrollments && s.statusSelection != "rejected"
    ensures ClickRejected(s, user, p.id, true).enrollments ==
            s.enrollments[p.id := Enrollment(p.id, None, None, None)]
    ensures StageIn(ClickRejected(s, user, p.id, true).enrollments, p.id) == Some(Rejected)
    ensures ClickRejected(s, user, p.id, true).(enrollments := s.enrollments) == s
  {
  }

  /**
   * The Submit under the Completed box writes a "completed" row with the date
   * exactly when a date was entered, and then clears the form.
   */
  lemma SubmitNewCompletionCreatesRow(s: PageState, user: Option<string>, p: Program)
    requires user.Some? && p.id !in s.enrollments
    ensures var s' := SubmitNewCompletion(s, user, p.id, true);
            if s.completionDate == "" then s' == s
            else s'.enrollments == s.enrollments[p.id := Enrollment(p.id, Some("completed"), Some(s.completionDate), None)] &&
                 s' == s.(enrollments := s'.enrollments, showDatePicker := false, completionDate := "",
                          completedCheck := false)
  {
  }

  /** A failed insert, or an insert for a program that already has a row, changes nothing. */
  lemma FailedInsertChangesNothing(s: PageState, user: Option<string>, programId: string, ok: bool)
    requires !ok || programId in s.enrollments
    ensures EnrollNow(s, user, programId, ok) == s
    ensures ClickOngoing(s, user, programId, ok) == s
    ensures ClickRejected(s, user, programId, ok) == s
    ensures SubmitNewCompletion(s, user, programId, ok) == s
  {
  }

  /** handleStatusChange: the four outcomes, and only the program's own row is touched. */
  lemma StatusChangeEffect(s: PageState, user: Option<string>, programId: string, status: string, now: Instant)
    ensures var s' := StatusChange(s, user, programId, status, now, true);
            (user.None? || programId !in s.enrollments ==> s' == s) &&
            (user.Some? && programId in s.enrollments && status == "completed" ==>
               s' == s.(statusSelection := "completed", showDatePicker := true)) &&
            (user.Some? && programId in s.enrollments && status != "completed" ==>
               programId in s'.enrollments &&
               s'.enrollments[programId] ==
                 s.enrollments[programId].(status := if status == "rejected" then None else Some(status),
                                           updatedAt := Some(now)) &&
               s' == s.(enrollments := s'.enrollments, statusSelection := "")) &&
            s'.enrollments.Keys == s.enrollments.Keys &&
            (forall id :: id in s.enrollments && id != programId ==> s'.enrollments[id] == s.enrollments[id])
  {
  }

  /** Marking a row ongoing twice at the same instant leaves it as marking it once. */
  lemma StatusChangeIdempotent(s: PageState, user: Option<string>, programId: string, now: Instant, ok2: bool)
    ensures var s1 := StatusChange(s, user, programId, "ongoing", now, true);
            StatusChange(s1, user, programId, "ongoing", now, ok2) == s1
  {
    var s1 := StatusChange(s, user, programId, "ongoing", now, true);
    if user.Some? && programId in s.enrollments {
      assert s1.enrollments[programId].status == Some("ongoing");
      assert s1.enrollments[programId := s1.enrollments[programId].(status := Some("ongoing"), updatedAt := Some(now))]
             == s1.enrollments;
    }
  }

  /**
   * handleCompletionSubmit writes only with a date and a row, and then the row
   * is completed on exactly that date.
   */
  lemma CompletionSubmitEffect(s: PageState, user: Option<string>, programId: string, now: Instant)
    ensures var s' := CompletionSubmit(s, user, programId, now, true);
            (user.None? || s.completionDate == "" || programId !in s.enrollments ==> s' == s) &&
            (user.Some? && s.completionDate != "" && programId in s.enrollments ==>
               s'.enrollments == s.enrollments[programId := s.enrollments[programId].(
                 status := Some("completed"), completionDate := Some(s.completionDate), updatedAt := Some(now))] &&
               StageIn(s'.enrollments, programId) == Some(Completed) &&
               s' == s.(enrollments := s'.enrollments, showDatePicker := false, completionDate := "",
                        statusSelection := ""))
  {
  }

  /**
   * Selecting a program opens it, or closes it when it was open; selecting it
   * again restores a selection that was that program or none. The rows, the
   * drug and the summaries never change, and the form is cleared.
   */
  lemma SelectProgramToggles(s: PageState, programId: string)
    ensures s.selectedProgramId in {None, Some(programId)} ==>
              SelectProgram(SelectProgram(s, programId), programId).selectedProgramId == s.selectedProgramId
    ensures var s' := SelectProgram(s, programId);
            s'.enrollments == s.enrollments && s'.patientDrug == s.patientDrug &&
            s'.showCostSummary == s.showCostSummary &&
            !s'.enrollNow && !s'.completedCheck && s'.statusSelection == "" &&
            !s'.showDatePicker && s'.completionDate == "" &&
            (s'.selectedProgramId == Some(programId) <==> s.selectedProgramId != Some(programId))
  {
  }

  /** Toggling a summary flips that program's flag and leaves every other key as it was. */
  lemma ToggleCostSummaryFlipsOne(s: PageState, programId: string)
    ensures var f := ToggleCostSummary(s, programId).showCostSummary;
            SummaryOpen(f, programId) == !SummaryOpen(s.showCostSummary, programId) &&
            f.Keys == s.showCostSummary.Keys + {programId} &&
            (forall k :: k in s.showCostSummary && k != programId ==> f[k] == s.showCostSummary[k])
    ensures ToggleCostSummary(s, programId).(showCostSummary := s.showCostSummary) == s
  {
  }

  /** Toggling twice shows every summary as it was shown before. */
  lemma ToggleCostSummaryTwice(s: PageState, programId: string)
    ensures forall k :: SummaryOpen(ToggleCostSummary(ToggleCostSummary(s, programId), programId).showCostSummary, k)
                        == SummaryOpen(s.showCostSummary, k)
  {
  }

  /** The row found for a program is that program's. */
  lemma EnrollmentForIsOwnRow(t: Table, programId: string)
    requires WellKeyed(t)
    ensures EnrollmentFor(t, programId).Some? <==> programId in t
    ensures EnrollmentFor(t, programId).Some? ==> EnrollmentFor(t, programId).value.programId == programId
  {
  }

  /** The schedule's refill date is the drug's own, or today plus fifteen days. */
  lemma DummyRefillDateValue(patientDrug: Option<PatientDrug>, today: Date)
    requires ValidDate(today)
    ensures patientDrug.Some? && patientDrug.value.refillDate.Some? ==>
              DummyRefillDate(patientDrug, today) == patientDrug.value.refillDate.value
    ensures !(patientDrug.Some? && patientDrug.value.refillDate.Some?) ==>
              ValidDate(DummyRefillDate(patientDrug, today)) &&
              DayNumber(DummyRefillDate(patientDrug, today)) == DayNumber(today) + 15
  {
    AddDaysNumber(today, 15);
  }

  // ---------------------------------------------------------------------
  // Lemmas: the lifecycle

  /** Status buttons exist only for an enrolled or ongoing row of an open program. */
  lemma StatusButtonsOnlyWhenUpdatable(s: PageState, p: Program, status: string)
    requires Offered(s, p, StatusButton(status))
    ensures IsOpen(p) && p.id in s.enrollments
    ensures StageIn(s.enrollments, p.id) in {Some(Enrolled), Some(Ongoing)}
  {
  }

  /**
   * With the row's date picker confined to updatable rows, a completed or
   * rejected row is final: no control the page offers changes any row.
   */
  lemma {:induction false} TerminalRowIsFrozen(s: PageState, p: Program, e: Event,
                                              user: Option<string>, now: Instant, ok: bool)
    requires p.id in s.enrollments && IsTerminal(StageOf(s.enrollments[p.id].status))
    requires OfferedIntended(s, p, e)
    ensures Step(s, p, e, user, now, ok).enrollments == s.enrollments
  {
    assert !NewRecordPanel(s, p) && !StatusPanel(s, p) && !RowDatePickerIntended(s, p);
  }

  /**
   * Each step the corrected page offers either leaves the rows alone or
   * changes only the selected program's row, along the lifecycle: a new row in
   * any stage, or an enrolled or ongoing row moved on.
   */
  lemma {:induction false} StepFollowsLifecycle(s: PageState, p: Program, e: Event,
                                               user: Option<string>, now: Instant, ok: bool)
    requires OfferedIntended(s, p, e)
    ensures var t := Step(s, p, e, user, now, ok).enrollments;
            t == s.enrollments ||
            (p.id in t && t == s.enrollments[p.id := t[p.id]] &&
             Allowed(StageIn(s.enrollments, p.id), StageOf(t[p.id].status)))
  {
    match e {
      case StatusButton(status) =>
        assert StatusPanel(s, p);
      case SubmitCompletionButton =>
        assert RowDatePickerIntended(s, p);
      case _ =>
    }
  }

  /**
   * As written, a rejected program can still be marked completed: tick
   * Completed (the picker opens), tick Rejected (a row with a null status is
   * inserted, the picker stays open), enter a date and submit. Every control
   * used is on the page at that moment; the corrected page hides the last two.
   */
  lemma RejectedBecomesCompleted(s0: PageState, p: Program, user: Option<string>, date: string,
                                 now: Instant)
    requires IsOpen(p) && user.Some? && date != ""
    requires p.id !in s0.enrollments && s0.selectedProgramId == None
    ensures var s1 := Step(s0, p, SelectEvent(p.id), user, now, true);
            var s2 := Step(s1, p, CompletedBox, user, now, true);
            var s3 := Step(s2, p, RejectedBox, user, now, true);
            var s4 := Step(s3, p, DateInput(date), user, now, true);
            var s5 := Step(s4, p, SubmitCompletionButton, user, now, true);
            Offered(s1, p, CompletedBox) && Offered(s2, p, RejectedBox) &&
            StageIn(s3.enrollments, p.id) == Some(Rejected) &&
            Offered(s3, p, DateInput(date)) && Offered(s4, p, SubmitCompletionButton) &&
            StageIn(s5.enrollments, p.id) == Some(Completed) &&
            !OfferedIntended(s3, p, DateInput(date)) && !OfferedIntended(s4, p, SubmitCompletionButton)
  {
  }

  /**
   * The ordinary path on the corrected page: enroll, mark ongoing, then mark
   * completed on a date, each control offered when it is used.
   */
  lemma EnrollOngoingCompleted(s0: PageState, p: Program, user: Option<string>, date: string,
                               now: Instant)
    requires IsOpen(p) && user.Some? && date != ""
    requires p.id !in s0.enrollments && s0.selectedProgramId == None
    ensures var s1 := Step(s0, p, SelectEvent(p.id), user, now, true);
            var s2 := Step(s1, p, EnrollNowBox, user, now, true);
            var s3 := Step(s2, p, ProceedButton, user, now, true);
            var s4 := Step(s3, p, StatusButton("ongoing"), user, now, true);
            var s5 := Step(s4, p, StatusButton("completed"), user, now, true);
            var s6 := Step(s5, p, DateInput(date), user, now, true);
            var s7 := Step(s6, p, SubmitCompletionButton, user, now, true);
            OfferedIntended(s1, p, EnrollNowBox) && OfferedIntended(s2, p, ProceedButton) &&
            StageIn(s3.enrollments, p.id) == Some(Enrolled) &&
            OfferedIntended(s3, p, StatusButton("ongoing")) &&
            StageIn(s4.enrollments, p.id) == Some(Ongoing) &&
            OfferedIntended(s4, p, StatusButton("completed")) &&
            OfferedIntended(s5, p, DateInput(date)) && OfferedIntended(s6, p, SubmitCompletionButton) &&
            s7.enrollments == s0.enrollments[p.id := Enrollment(p.id, Some("completed"), Some(date), Some(now))]
  {
    var s3 := Step(Step(Step(s0, p, SelectEvent(p.id), user, now, true), p, EnrollNowBox, user, now, true),
                   p, ProceedButton, user, now, true);
    EnrollFromNothing(s0, p, user, now);
    OngoingThenCompleted(s3, p, user, date, now);
    assert s3.enrollments[p.id := Enrollment(p.id, Some("completed"), Some(date), Some(now))]
        == s0.enrollments[p.id := Enrollment(p.id, Some("completed"), Some(date), Some(now))];
  }

  /** The first half of that path: select the program, tick Enroll Now, then Proceed. */
  lemma EnrollFromNothing(s0: PageState, p: Program, user: Option<string>, now: Instant)
    requires IsOpen(p) && user.Some?
    requires p.id !in s0.enrollments && s0.selectedProgramId == None
    ensures var s1 := Step(s0, p, SelectEvent(p.id), user, now, true);
            var s2 := Step(s1, p, EnrollNowBox, user, now, true);
            var s3 := Step(s2, p, ProceedButton, user, now, true);
            OfferedIntended(s1, p, EnrollNowBox) && OfferedIntended(s2, p, ProceedButton) &&
            s3.selectedProgramId == Some(p.id) && s3.statusSelection == "" &&
            s3.enrollments == s0.enrollments[p.id := Enrollment(p.id, Some("enrolled"), None, None)]
  {
  }

  /** The second half: an enrolled row marked ongoing, then completed on a date. */
  lemma OngoingThenCompleted(s3: PageState, p: Program, user: Option<string>, date: string, now: Instant)
    requires IsOpen(p) && user.Some? && date != ""
    requires s3.selectedProgramId == Some(p.id)
    requires p.id in s3.enrollments && s3.enrollments[p.id].status == Some("enrolled")
    requires s3.enrollments[p.id].programId == p.id
    ensures var s4 := Step(s3, p, StatusButton("ongoing"), user, now, true);
            var s5 := Step(s4, p, StatusButton("completed"), user, now, true);
            var s6 := Step(s5, p, DateInput(date), user, now, true);
            var s7 := Step(s6, p, SubmitCompletionButton, user, now, true);
            StageIn(s3.enrollments, p.id) == Some(Enrolled) &&
            OfferedIntended(s3, p, StatusButton("ongoing")) &&
            StageIn(s4.enrollments, p.id) == Some(Ongoing) &&
            OfferedIntended(s4, p, StatusButton("completed")) &&
            OfferedIntended(s5, p, DateInput(date)) && OfferedIntended(s6, p, SubmitCompletionButton) &&
            s7.enrollments == s3.enrollments[p.id := Enrollment(p.id, Some("completed"), Some(date), Some(now))]
  {
  }
}
