/** The form that creates or edits an equipment. Every field is a string in
    the form, "" for a missing column; on submit the two date fields become
    null when empty, every other field is sent as the form holds it, and the
    write is an update by id when an equipment was given and an insert
    otherwise. */
module EquipmentForm {
  import opened Types
  import opened Store

  datatype FormData = FormData(
    name: string,
    serialNumber: string,
    categoryId: string,
    teamId: string,
    assignedTechnicianId: string,
    department: string,
    assignedEmployee: string,
    purchaseDate: string,
    warrantyExpiry: string,
    location: string,
    status: string,
    notes: string)

  /** The columns the form writes: the form with the two dates nullable. */
  datatype Payload = Payload(
    name: string,
    serialNumber: string,
    categoryId: string,
    teamId: string,
    assignedTechnicianId: string,
    department: string,
    assignedEmployee: string,
    purchaseDate: Option<string>,
    warrantyExpiry: Option<string>,
    location: string,
    status: string,
    notes: string)

  datatype EquipmentWrite = UpdateEquipment(id: string, payload: Payload) | InsertEquipment(payload: Payload)

  /** The form's first state: each column of the given equipment or "", and
      the status "active" for a new equipment. */
  function InitialFormOf(equipment: Option<Equipment>): (f: FormData)
    ensures equipment.None? ==>
      f == FormData("", "", "", "", "", "", "", "", "", "", "active", "")
    ensures equipment.Some? ==>
      var e := equipment.value;
      && f.name == e.name
      && f.serialNumber == OrEmpty(e.serialNumber)
      && f.categoryId == OrEmpty(e.categoryId)
      && f.teamId == OrEmpty(e.teamId)
      && f.assignedTechnicianId == OrEmpty(e.assignedTechnicianId)
      && f.department == OrEmpty(e.department)
      && f.assignedEmployee == OrEmpty(e.assignedEmployee)
      && f.purchaseDate == OrEmpty(e.purchaseDate)
      && f.warrantyExpiry == OrEmpty(e.warrantyExpiry)
      && f.location == OrEmpty(e.location)
      && ParseStatus(f.status) == Some(e.status)
      && f.notes == OrEmpty(e.notes)
  {
    match equipment
    case None => FormData("", "", "", "", "", "", "", "", "", "", "active", "")
    case Some(e) =>
      StatusNameRoundTrip(e.status, e.status);
      FormData(e.name, OrEmpty(e.serialNumber), OrEmpty(e.categoryId), OrEmpty(e.teamId),
        OrEmpty(e.assignedTechnicianId), OrEmpty(e.department), OrEmpty(e.assignedEmployee),
        OrEmpty(e.purchaseDate), OrEmpty(e.warrantyExpiry), OrEmpty(e.location),
        StatusName(e.status), OrEmpty(e.notes))
  }

  /** `{ ...formData, purchase_date: ... || null, warranty_expiry: ... || null }`. */
  function PayloadOf(f: FormData): (p: Payload)
    ensures OrEmpty(p.purchaseDate) == f.purchaseDate && p.purchaseDate != Some("")
    ensures OrEmpty(p.warrantyExpiry) == f.warrantyExpiry && p.warrantyExpiry != Some("")
    ensures p.(purchaseDate := None, warrantyExpiry := None)
         == Payload(f.name, f.serialNumber, f.categoryId, f.teamId, f.assignedTechnicianId,
              f.department, f.assignedEmployee, None, None, f.location, f.status, f.notes)
  {
    Payload(f.name, f.serialNumber, f.categoryId, f.teamId, f.assignedTechnicianId,
      f.department, f.assignedEmployee, NullIfEmpty(f.purchaseDate), NullIfEmpty(f.warrantyExpiry),
      f.location, f.status, f.notes)
  }

  /** The write `handleSubmit` issues for the form's equipment. */
  function WriteFor(equipment: Option<Equipment>, f: FormData): (w: EquipmentWrite)
    ensures w.payload == PayloadOf(f)
    ensures w.UpdateEquipment? <==> equipment.Some?
    ensures w.UpdateEquipment? ==> w.id == equipment.value.id
  {
    if equipment.Some? then UpdateEquipment(equipment.value.id, PayloadOf(f)) else InsertEquipment(PayloadOf(f))
  }

  /** Saving an equipment's form untouched writes back its name, its status
      and its two dates as they were stored (a stored empty date becomes
      null); every other nullable column is written back as stored when it
      holds a value, and as "" when it is null. */
  lemma UneditedSaveKeepsColumns(e: Equipment)
    ensures var w := WriteFor(Some(e), InitialFormOf(Some(e)));
      && w == UpdateEquipment(e.id, w.payload)
      && w.payload.name == e.name
      && ParseStatus(w.payload.status) == Some(e.status)
      && w.payload.purchaseDate == (if e.purchaseDate == Some("") then None else e.purchaseDate)
      && w.payload.warrantyExpiry == (if e.warrantyExpiry == Some("") then None else e.warrantyExpiry)
    ensures var p := WriteFor(Some(e), InitialFormOf(Some(e))).payload;
      && Some(p.serialNumber) == (if e.serialNumber.None? then Some("") else e.serialNumber)
      && Some(p.categoryId) == (if e.categoryId.None? then Some("") else e.categoryId)
      && Some(p.teamId) == (if e.teamId.None? then Some("") else e.teamId)
      && Some(p.assignedTechnicianId) == (if e.assignedTechnicianId.None? then Some("") else e.assignedTechnicianId)
      && Some(p.department) == (if e.department.None? then Some("") else e.department)
      && Some(p.assignedEmployee) == (if e.assignedEmployee.None? then Some("") else e.assignedEmployee)
      && Some(p.location) == (if e.location.None? then Some("") else e.location)
      && Some(p.notes) == (if e.notes.None? then Some("") else e.notes)
  {
    EmptyNullRoundTrip("", e.purchaseDate);
    EmptyNullRoundTrip("", e.warrantyExpiry);
  }

  /** A new equipment's untouched form inserts an active equipment with
      empty text columns and no dates. */
  lemma NewFormInsertsActive()
    ensures var w := WriteFor(None, InitialFormOf(None));
      && w.InsertEquipment?
      && ParseStatus(w.payload.status) == Some(Active)
      && w.payload.purchaseDate.None? && w.payload.warrantyExpiry.None?
      && w.payload.name == "" && w.payload.categoryId == ""
  {
  }

  class Editor {
    const equipment: Option<Equipment>
    var form: FormData
    var error: Option<string>
    var navigated: bool

    constructor (equipment: Option<Equipment>)
      ensures this.equipment == equipment && form == InitialFormOf(equipment)
      ensures error == None && !navigated
    {
      this.equipment := equipment;
      form := InitialFormOf(equipment);
      error := None;
      navigated := false;
    }

    /** The field inputs, each replacing one field of the form. */
    method Edit(f: FormData)
      modifies this
      ensures form == f && error == old(error) && navigated == old(navigated)
    {
      form := f;
    }

    /** `handleSubmit`: issues `WriteFor` the current form; on success goes
        to the equipment list, on a rejection shows the error and keeps the
        form. */
    method Submit(outcome: Outcome) returns (write: EquipmentWrite)
      modifies this
      ensures write == WriteFor(equipment, old(form))
      ensures form == old(form)
      ensures outcome.Ok? ==> error == None && navigated
      ensures outcome.Rejected? ==> error == Some(ErrorText(outcome.message)) && navigated == old(navigated)
    {
      error := None;
      var payload := PayloadOf(form);
      if equipment.Some? {
        write := UpdateEquipment(equipment.value.id, payload);
      } else {
        write := InsertEquipment(payload);
      }
      if outcome.Ok? {
        navigated := true;
      } else {
        error := Some(ErrorText(outcome.message));
      }
    }
  }
}
