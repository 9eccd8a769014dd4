/**
 * The add/edit dialog of the departments page (client/src/pages/Departments.tsx): whether it is
 * open, which department it edits, the form, and the requests the page has sent. The server's
 * answers arrive as calls of `OnSaveSuccess`.
 */
module DepartmentsPage {
  import opened Wrappers
  import opened Text
  import opened ClientTypes
  import RoleContext

  /** A department as listed; `description` is optional. */
  datatype Department = Department(id: int, name: string, description: Option<string>)

  datatype DepartmentForm = DepartmentForm(name: string, description: string)

  const EmptyForm: DepartmentForm := DepartmentForm("", "")

  /** The requests the page sends. */
  datatype Request = Create(values: DepartmentForm) | Update(id: int, values: DepartmentForm) | Delete(id: int)

  /** What `handleDepartmentForm` sends for a form: nothing for a blank name. */
  function SubmitRequest(editing: Option<Department>, form: DepartmentForm): Option<Request> {
    if IsBlank(form.name) then None
    else if editing.Some? then Some(Update(editing.value.id, form))
    else Some(Create(form))
  }

  /** The form an edit starts from. */
  function FormFor(d: Department): DepartmentForm {
    DepartmentForm(d.name, d.description.GetOr(""))
  }

  /**
   * A blank name sends nothing; otherwise an update of the edited department or, with none,
   * a create, carrying the form as typed.
   */
  lemma SubmitRequestSpec(editing: Option<Department>, form: DepartmentForm)
    ensures SubmitRequest(editing, form).None? <==> AllWhitespace(form.name)
    ensures SubmitRequest(editing, form).Some? && editing.Some? ==>
      SubmitRequest(editing, form).value == Update(editing.value.id, form)
    ensures SubmitRequest(editing, form).Some? && editing.None? ==>
      SubmitRequest(editing, form).value == Create(form)
  {
    BlankIffAllWhitespace(form.name);
  }

  /** Editing and submitting unchanged sends the department's own name and description back. */
  lemma EditRoundTrip(d: Department)
    requires !AllWhitespace(d.name)
    ensures SubmitRequest(Some(d), FormFor(d)) == Some(Update(d.id, DepartmentForm(d.name, d.description.GetOr(""))))
  {
    BlankIffAllWhitespace(d.name);
  }

  class DepartmentsDialog {
    const user: Option<User>
    var showAddModal: bool
    var editing: Option<Department>
    var form: DepartmentForm
    /** Every request sent, in order. */
    var requests: seq<Request>

    /** A closed dialog holds an empty form and edits nothing. */
    predicate Valid()
      reads this
    {
      !showAddModal ==> form == EmptyForm && editing.None?
    }

    /** The add, edit and delete buttons show only to those who may manage departments. */
    predicate CanManage()
    {
      RoleContext.CanManageDepartments(user)
    }

    constructor (user: Option<User>)
      ensures Valid()
      ensures this.user == user
      ensures !showAddModal && editing.None? && form == EmptyForm && requests == []
    {
      this.user := user;
      showAddModal := false;
      editing := None;
      form := EmptyForm;
      requests := [];
    }

    /** The add button opens the dialog; it then always starts a blank creation. */
    method OpenAdd()
      requires Valid() && CanManage()
      modifies this
      ensures Valid()
      ensures showAddModal
      ensures !old(showAddModal) ==> editing.None? && form == EmptyForm
      ensures editing == old(editing) && form == old(form) && requests == old(requests)
    {
      showAddModal := true;
    }

    /** The edit button: the department, its name, and its description or "". */
    method OpenEdit(d: Department)
      requires Valid() && CanManage()
      modifies this
      ensures Valid()
      ensures showAddModal && editing == Some(d) && form == FormFor(d)
      ensures requests == old(requests)
    {
      editing := Some(d);
      form := DepartmentForm(d.name, d.description.GetOr(""));
      showAddModal := true;
    }

    /** Typing in the open dialog. */
    method ChangeForm(name: string, description: string)
      requires Valid() && showAddModal
      modifies this
      ensures Valid()
      ensures form == DepartmentForm(name, description)
      ensures showAddModal == old(showAddModal) && editing == old(editing) && requests == old(requests)
    {
      form := DepartmentForm(name, description);
    }

    /** `handleDepartmentForm`: sends the request for the form, if any; the dialog stays open. */
    method Submit()
      requires Valid() && showAddModal
      modifies this
      ensures Valid()
      ensures var r := SubmitRequest(editing, form);
        requests == old(requests) + (if r.Some? then [r.value] else [])
      ensures showAddModal == old(showAddModal) && editing == old(editing) && form == old(form)
    {
      if Trim(form.name) == "" {
        return;
      }
      if editing.Some? {
        requests := requests + [Update(editing.value.id, form)];
      } else {
        requests := requests + [Create(form)];
      }
    }

    /** The delete button of a card. */
    method DeleteDepartment(id: int)
      requires Valid() && CanManage()
      modifies this
      ensures Valid()
      ensures requests == old(requests) + [Delete(id)]
      ensures showAddModal == old(showAddModal) && editing == old(editing) && form == old(form)
    {
      requests := requests + [Delete(id)];
    }

    /** A create or an update succeeded: the dialog closes, edits nothing, and the form is emptied. */
    method OnSaveSuccess()
      requires Valid()
      modifies this
      ensures Valid()
      ensures !showAddModal && editing.None? && form == EmptyForm
      ensures requests == old(requests)
    {
      showAddModal := false;
      editing := None;
      form := EmptyForm;
    }

    /** Closing the dialog or pressing "Annuler": the same reset as a success. */
    method Close()
      requires Valid()
      modifies this
      ensures Valid()
      ensures !showAddModal && editing.None? && form == EmptyForm
      ensures requests == old(requests)
    {
      showAddModal := false;
      editing := None;
      form := EmptyForm;
    }
  }
}
