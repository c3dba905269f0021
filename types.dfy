/** Record shapes shared by every screen of the maintenance tracker: profiles,
    teams, equipment and maintenance requests with their closed enumerations.
    A nullable column becomes an `Option`; a column that is always present
    keeps its plain type. */
module Types {

  datatype Option<+T> = None | Some(value: T)

  /** An instant, in milliseconds since 1970-01-01T00:00:00Z. */
  type Timestamp = int

  datatype Role = Admin | Manager | Technician

  datatype EquipmentStatus = Active | Maintenance | Scrapped

  datatype RequestType = Corrective | Preventive

  datatype Stage = New | InProgress | Repaired | Scrap

  datatype Priority = Low | Medium | High | Urgent

  datatype Profile = Profile(
    id: string,
    email: string,
    fullName: Option<string>,
    avatarUrl: Option<string>,
    role: Role,
    createdAt: Timestamp,
    updatedAt: Timestamp)

  datatype Team = Team(
    id: string,
    name: string,
    description: Option<string>,
    createdAt: Timestamp,
    updatedAt: Timestamp)

  datatype TeamMember = TeamMember(
    id: string,
    teamId: string,
    userId: string,
    createdAt: Timestamp)

  datatype EquipmentCategory = EquipmentCategory(
    id: string,
    name: string,
    description: Option<string>,
    createdAt: Timestamp)

  /** Purchase and warranty dates are kept as the date strings the store
      returns; the model never compares them. */
  datatype Equipment = Equipment(
    id: string,
    name: string,
    serialNumber: Option<string>,
    categoryId: Option<string>,
    teamId: Option<string>,
    assignedTechnicianId: Option<string>,
    department: Option<string>,
    assignedEmployee: Option<string>,
    purchaseDate: Option<string>,
    warrantyExpiry: Option<string>,
    location: Option<string>,
    status: EquipmentStatus,
    notes: Option<string>,
    createdAt: Timestamp,
    updatedAt: Timestamp)

  /** The central mutable entity: `equipmentId` and `requestedBy` are always
      present, the category, team and assignee may be missing. */
  datatype MaintenanceRequest = MaintenanceRequest(
    id: string,
    subject: string,
    description: Option<string>,
    equipmentId: string,
    categoryId: Option<string>,
    teamId: Option<string>,
    assignedTo: Option<string>,
    requestedBy: string,
    requestType: RequestType,
    stage: Stage,
    priority: Priority,
    scheduledDate: Option<Timestamp>,
    completedDate: Option<Timestamp>,
    durationHours: Option<real>,
    notes: Option<string>,
    createdAt: Timestamp,
    updatedAt: Timestamp)

  /** The string a stage is stored and passed around as. */
  function StageName(s: Stage): string
  {
    match s
    case New => "new"
    case InProgress => "in_progress"
    case Repaired => "repaired"
    case Scrap => "scrap"
  }

  /** Reads a stage back from its string; every other string is no stage. */
  function ParseStage(name: string): (s: Option<Stage>)
    ensures s.Some? ==> StageName(s.value) == name
  {
    if name == "new" then Some(New)
    else if name == "in_progress" then Some(InProgress)
    else if name == "repaired" then Some(Repaired)
    else if name == "scrap" then Some(Scrap)
    else None
  }

  /** Stage names are a faithful encoding: parsing a name gives its stage
      back, so distinct stages have distinct names. */
  lemma StageNameRoundTrip(s: Stage, t: Stage)
    ensures ParseStage(StageName(s)) == Some(s)
    ensures StageName(s) == StageName(t) ==> s == t
  {
    assert ParseStage(StageName(t)) == Some(t);
  }

  /** The string an equipment status is stored as. */
  function StatusName(s: EquipmentStatus): string
  {
    match s
    case Active => "active"
    case Maintenance => "maintenance"
    case Scrapped => "scrapped"
  }

  /** Reads a status back from the value of the status select. */
  function ParseStatus(name: string): (s: Option<EquipmentStatus>)
    ensures s.Some? ==> StatusName(s.value) == name
  {
    if name == "active" then Some(Active)
    else if name == "maintenance" then Some(Maintenance)
    else if name == "scrapped" then Some(Scrapped)
    else None
  }

  /** Status names are a faithful encoding, and none is empty. */
  lemma StatusNameRoundTrip(s: EquipmentStatus, t: EquipmentStatus)
    ensures ParseStatus(StatusName(s)) == Some(s)
    ensures StatusName(s) == StatusName(t) ==> s == t
    ensures StatusName(s) != ""
  {
    assert ParseStatus(StatusName(t)) == Some(t);
  }

  /** `["admin", "manager"].includes(role)`: the roles that may manage teams
      and act on any request. */
  predicate CanManage(role: Role)
    ensures CanManage(role) <==> role != Technician
  {
    role == Admin || role == Manager
  }

  /** `x || ""` on a nullable string column. */
  function OrEmpty(o: Option<string>): string
  {
    if o.Some? then o.value else ""
  }

  /** `x || null` on a form string: the empty string becomes null. */
  function NullIfEmpty(s: string): Option<string>
  {
    if s == "" then None else Some(s)
  }

  /** Turning a form string into a column and back loses nothing; turning a
      column into a form string and back loses only the difference between
      null and the empty string. */
  lemma EmptyNullRoundTrip(s: string, o: Option<string>)
    ensures OrEmpty(NullIfEmpty(s)) == s
    ensures NullIfEmpty(OrEmpty(o)) == if o == Some("") then None else o
  {
  }
}
