/**
 * The program-enrollment component as an object: its state hooks are fields,
 * and each handler updates them in place. Every method is tied to the
 * transition of EnrollmentLifecycle that specifies it, so what is proved there
 * about the transitions holds of the component.
 */
module ProgramEnrollmentPage {
  import opened Wrappers
  import opened CalendarDates
  import opened Records
  import opened EnrollmentLifecycle

  class EnrollmentPage {
    var user: Option<string>
    var enrollments: Table
    var patientDrug: Option<PatientDrug>
    var selectedProgramId: Option<string>
    var enrollNow: bool
    var completedCheck: bool
    var statusSelection: string
    var showDatePicker: bool
    var completionDate: string
    var showCostSummary: map<string, bool>

    function State(): PageState
      reads this
    {
      PageState(enrollments, patientDrug, selectedProgramId, enrollNow, completedCheck,
                statusSelection, showDatePicker, completionDate, showCostSummary)
    }

    /** The loaded rows are filed under their program ids. */
    ghost predicate Valid()
      reads this
    {
      WellKeyed(enrollments)
    }

    /** The page after loading: the patient's rows and drug record, nothing selected, an empty form. */
    constructor (user: Option<string>, rows: Table, patientDrug: Option<PatientDrug>)
      requires WellKeyed(rows)
      ensures this.user == user && Valid()
      ensures State() == PageState(rows, patientDrug, None, false, false, "", false, "", map[])
    {
      this.user := user;
      enrollments := rows;
      this.patientDrug := patientDrug;
      selectedProgramId := None;
      enrollNow := false;
      completedCheck := false;
      statusSelection := "";
      showDatePicker := false;
      completionDate := "";
      showCostSummary := map[];
    }

    method HandleProgramSelect(programId: string)
      modifies this
      requires Valid()
      ensures user == old(user) && Valid()
      ensures State() == SelectProgram(old(State()), programId)
    {
      selectedProgramId := if selectedProgramId == Some(programId) then None else Some(programId);
      enrollNow := false;
      completedCheck := false;
      statusSelection := "";
      showDatePicker := false;
      completionDate := "";
    }

    method ToggleEnrollNowBox()
      modifies this
      requires Valid()
      ensures user == old(user) && Valid()
      ensures State() == ToggleEnrollNow(old(State()))
    {
      enrollNow := !enrollNow;
    }

    /** handleEnrollNow; `ok` is whether the store accepts the insert. */
    method HandleEnrollNow(program: Program, ok: bool)
      modifies this
      requires Valid()
      ensures user == old(user) && Valid()
      ensures State() == EnrollNow(old(State()), user, program.id, ok)
    {
      if user.None? {
        return;
      }
      if !ok || program.id in enrollments {
        return;
      }
      enrollments := enrollments[program.id := Enrollment(program.id, Some("enrolled"), None, None)];
    }

    method HandleOngoingBox(program: Program, ok: bool)
      modifies this
      requires Valid()
      ensures user == old(user) && Valid()
      ensures State() == ClickOngoing(old(State()), user, program.id, ok)
    {
      var checked := statusSelection != "ongoing";
      if checked && user.Some? && ok && program.id !in enrollments {
        enrollments := enrollments[program.id := Enrollment(program.id, Some("ongoing"), None, None)];
      }
    }

    method HandleRejectedBox(program: Program, ok: bool)
      modifies this
      requires Valid()
      ensures user == old(user) && Valid()
      ensures State() == ClickRejected(old(State()), user, program.id, ok)
    {
      var checked := statusSelection != "rejected";
      if checked && user.Some? && ok && program.id !in enrollments {
        enrollments := enrollments[program.id := Enrollment(program.id, None, None, None)];
      }
    }

    method HandleCompletedBox()
      modifies this
      requires Valid()
      ensures user == old(user) && Valid()
      ensures State() == ClickCompleted(old(State()))
    {
      var checked := !completedCheck;
      completedCheck := checked;
      if checked {
        showDatePicker := true;
      } else {
        showDatePicker := false;
        completionDate := "";
      }
    }

    method HandleDateInput(date: string)
      modifies this
      requires Valid()
      ensures user == old(user) && Valid()
      ensures State() == EnterCompletionDate(old(State()), date)
    {
      completionDate := date;
    }

    /** The Submit button under the Completed box. */
    method HandleSubmitNewCompletion(program: Program, ok: bool)
      modifies this
      requires Valid()
      ensures user == old(user) && Valid()
      ensures State() == SubmitNewCompletion(old(State()), user, program.id, ok)
    {
      if user.None? || completionDate == "" {
        return;
      }
      if !ok || program.id in enrollments {
        return;
      }
      enrollments := enrollments[program.id := Enrollment(program.id, Some("completed"), Some(completionDate), None)];
      showDatePicker := false;
      completionDate := "";
      completedCheck := false;
    }

    method HandleStatusChange(program: Program, status: string, now: Instant, ok: bool)
      modifies this
      requires Valid()
      ensures user == old(user) && Valid()
      ensures State() == StatusChange(old(State()), user, program.id, status, now, ok)
    {
      if user.None? || program.id !in enrollments {
        return;
      }
      if status == "completed" {
        statusSelection := status;
        showDatePicker := true;
        return;
      }
      var newStatus := if status == "rejected" then None else Some(status);
      if !ok {
        return;
      }
      var row := enrollments[program.id];
      enrollments := enrollments[program.id := row.(status := newStatus, updatedAt := Some(now))];
      statusSelection := "";
    }

    method HandleCompletionSubmit(program: Program, now: Instant, ok: bool)
      modifies this
      requires Valid()
      ensures user == old(user) && Valid()
      ensures State() == CompletionSubmit(old(State()), user, program.id, now, ok)
    {
      if user.None? || completionDate == "" {
        return;
      }
      if program.id !in enrollments || !ok {
        return;
      }
      var row := enrollments[program.id];
      enrollments := enrollments[program.id := row.(status := Some("completed"),
                                                    completionDate := Some(completionDate),
                                                    updatedAt := Some(now))];
      showDatePicker := false;
      completionDate := "";
      statusSelection := "";
    }

    method HandleToggleCostSummary(programId: string)
      modifies this
      requires Valid()
      ensures user == old(user) && Valid()
      ensures State() == ToggleCostSummary(old(State()), programId)
    {
      var open := programId in showCostSummary && showCostSummary[programId];
      showCostSummary := showCostSummary[programId := !open];
    }
  }
}
