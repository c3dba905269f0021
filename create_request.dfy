/** The dialog that files a new maintenance request. Its form holds strings
    (the empty string for "not chosen"); choosing an equipment copies that
    equipment's category, team and technician into the form as defaults, and
    submitting turns the empty optional fields into nulls for the insert. */
module CreateRequest {
  import opened Types
  import opened Store

  datatype RequestForm = RequestForm(
    subject: string,
    description: string,
    equipmentId: string,
    categoryId: string,
    teamId: string,
    assignedTo: string,
    requestType: RequestType,
    priority: Priority,
    scheduledDate: string)

  /** The row the dialog inserts. `scheduledDate` is the text of the
      date-time input. */
  datatype RequestInsert = RequestInsert(
    subject: string,
    description: string,
    equipmentId: string,
    categoryId: Option<string>,
    teamId: Option<string>,
    assignedTo: Option<string>,
    requestType: RequestType,
    priority: Priority,
    scheduledDate: Option<string>,
    requestedBy: string)

  /** The form a fresh or reset dialog shows. */
  function InitialForm(): (f: RequestForm)
    ensures f.subject == f.description == f.equipmentId == f.categoryId == ""
    ensures f.teamId == f.assignedTo == f.scheduledDate == ""
    ensures f.requestType == Corrective && f.priority == Medium
  {
    RequestForm("", "", "", "", "", "", Corrective, Medium, "")
  }

  /** `equipment.find(e => e.id === id)`: the first equipment with that id. */
  function FindEquipment(equipment: seq<Equipment>, id: string): (found: Option<Equipment>)
    ensures found.None? <==> forall i :: 0 <= i < |equipment| ==> equipment[i].id != id
    ensures found.Some? ==>
      exists i :: (0 <= i < |equipment| && equipment[i] == found.value && equipment[i].id == id
        && forall j :: 0 <= j < i ==> equipment[j].id != id)
  {
    if equipment == [] then None
    else if equipment[0].id == id then Some(equipment[0])
    else
      var rest := FindEquipment(equipment[1..], id);
      assert forall j :: 1 <= j < |equipment| ==> equipment[j] == equipment[1..][j - 1];
      rest
  }

  /** `handleEquipmentChange`: records the chosen id and, for a listed
      equipment, replaces category, team and assignee by its defaults. */
  function AutoFill(form: RequestForm, equipment: seq<Equipment>, id: string): (f: RequestForm)
    ensures f.equipmentId == id
    ensures f.(equipmentId := form.equipmentId, categoryId := form.categoryId,
               teamId := form.teamId, assignedTo := form.assignedTo) == form
  {
    match FindEquipment(equipment, id)
    case Some(e) =>
      form.(equipmentId := id, categoryId := OrEmpty(e.categoryId),
            teamId := OrEmpty(e.teamId), assignedTo := OrEmpty(e.assignedTechnicianId))
    case None => form.(equipmentId := id)
  }

  /** A listed equipment's defaults reach the form, and the fields the user
      typed or picked stay as they were. */
  lemma AutoFillCopiesDefaults(form: RequestForm, equipment: seq<Equipment>, i: nat)
    requires i < |equipment|
    requires forall j :: 0 <= j < i ==> equipment[j].id != equipment[i].id
    ensures var f := AutoFill(form, equipment, equipment[i].id);
      && f.equipmentId == equipment[i].id
      && f.categoryId == OrEmpty(equipment[i].categoryId)
      && f.teamId == OrEmpty(equipment[i].teamId)
      && f.assignedTo == OrEmpty(equipment[i].assignedTechnicianId)
      && f.(equipmentId := form.equipmentId, categoryId := form.categoryId,
            teamId := form.teamId, assignedTo := form.assignedTo) == form
  {
    var found := FindEquipment(equipment, equipment[i].id);
    var k :| 0 <= k < |equipment| && equipment[k] == found.value
      && equipment[k].id == equipment[i].id && forall j :: 0 <= j < k ==> equipment[j].id != equipment[i].id;
    assert k == i;
  }

  /** An id that no listed equipment has changes the equipment id only. */
  lemma AutoFillUnknownId(form: RequestForm, equipment: seq<Equipment>, id: string)
    requires forall e :: e in equipment ==> e.id != id
    ensures AutoFill(form, equipment, id) == form.(equipmentId := id)
  {
  }

  /** Choosing the same equipment twice gives the form choosing it once
      gives. */
  lemma AutoFillIdempotent(form: RequestForm, equipment: seq<Equipment>, id: string)
    ensures AutoFill(AutoFill(form, equipment, id), equipment, id) == AutoFill(form, equipment, id)
  {
  }

  /** The insert of `handleSubmit`: the current user as requester, and null
      for an empty scheduled date, category, team or assignee. */
  function InsertPayload(form: RequestForm, user: Profile): (p: RequestInsert)
    ensures p.requestedBy == user.id
    ensures OrEmpty(p.categoryId) == form.categoryId && p.categoryId != Some("")
    ensures OrEmpty(p.teamId) == form.teamId && p.teamId != Some("")
    ensures OrEmpty(p.assignedTo) == form.assignedTo && p.assignedTo != Some("")
    ensures OrEmpty(p.scheduledDate) == form.scheduledDate && p.scheduledDate != Some("")
    ensures p.subject == form.subject && p.description == form.description
    ensures p.equipmentId == form.equipmentId
    ensures p.requestType == form.requestType && p.priority == form.priority
  {
    RequestInsert(form.subject, form.description, form.equipmentId,
      NullIfEmpty(form.categoryId), NullIfEmpty(form.teamId), NullIfEmpty(form.assignedTo),
      form.requestType, form.priority, NullIfEmpty(form.scheduledDate), user.id)
  }

  /** Filing a request right after choosing a listed equipment sends that
      equipment's team and technician as the request's team and assignee. */
  lemma DefaultsReachInsert(equipment: seq<Equipment>, i: nat, user: Profile)
    requires i < |equipment|
    requires forall j :: 0 <= j < i ==> equipment[j].id != equipment[i].id
    requires equipment[i].teamId != Some("") && equipment[i].assignedTechnicianId != Some("")
    requires equipment[i].categoryId != Some("")
    ensures var p := InsertPayload(AutoFill(InitialForm(), equipment, equipment[i].id), user);
      && p.equipmentId == equipment[i].id
      && p.categoryId == equipment[i].categoryId
      && p.teamId == equipment[i].teamId
      && p.assignedTo == equipment[i].assignedTechnicianId
  {
    AutoFillCopiesDefaults(InitialForm(), equipment, i);
    EmptyNullRoundTrip("", equipment[i].teamId);
    EmptyNullRoundTrip("", equipment[i].assignedTechnicianId);
    EmptyNullRoundTrip("", equipment[i].categoryId);
  }

  class Dialog {
    const equipment: seq<Equipment>
    const currentUser: Profile
    var form: RequestForm
    var isOpen: bool
    var error: Option<string>

    constructor (equipment: seq<Equipment>, currentUser: Profile)
      ensures this.equipment == equipment && this.currentUser == currentUser
      ensures form == InitialForm() && !isOpen && error == None
    {
      this.equipment := equipment;
      this.currentUser := currentUser;
      form := InitialForm();
      isOpen := false;
      error := None;
    }

    /** `onOpenChange`. */
    method SetOpen(open: bool)
      modifies this
      ensures isOpen == open && form == old(form) && error == old(error)
    {
      isOpen := open;
    }

    /** The field inputs, each replacing one field of the form. */
    method Edit(f: RequestForm)
      modifies this
      ensures form == f && isOpen == old(isOpen) && error == old(error)
    {
      form := f;
    }

    /** The equipment select. */
    method SelectEquipment(id: string)
      modifies this
      ensures form == AutoFill(old(form), equipment, id)
      ensures isOpen == old(isOpen) && error == old(error)
    {
      form := AutoFill(form, equipment, id);
    }

    /** `handleSubmit`: sends `InsertPayload` of the current form. An
        accepted insert closes the dialog, resets the form and refreshes the
        page; a rejected one keeps form and dialog as they are and shows the
        error. */
    method Submit(outcome: Outcome) returns (sent: RequestInsert, refreshed: bool)
      modifies this
      ensures sent == InsertPayload(old(form), currentUser)
      ensures refreshed <==> outcome.Ok?
      ensures outcome.Ok? ==> !isOpen && form == InitialForm() && error == None
      ensures outcome.Rejected? ==>
        isOpen == old(isOpen) && form == old(form) && error == Some(ErrorText(outcome.message))
    {
      error := None;
      sent := InsertPayload(form, currentUser);
      refreshed := outcome.Ok?;
      if outcome.Ok? {
        isOpen := false;
        form := InitialForm();
      } else {
        error := Some(ErrorText(outcome.message));
      }
    }
  }
}
