/** The hosted table of maintenance requests, reduced to what the stage
    writes need: a map from request id to row, an update by id that writes a
    stage and possibly a completion time, and the outcome the store reports.
    Whether a write is accepted is decided outside the program, so it is a
    parameter. */
module Store {
  import opened Types

  /** What the store answers to a write. `message` is present when the value
      thrown for a rejection is an `Error`. */
  datatype Outcome = Ok | Rejected(message: Option<string>)

  /** The text a form shows for a rejected write: the error's message, or a
      fixed fallback when the thrown value is not an `Error`. */
  function ErrorText(message: Option<string>): (text: string)
    ensures message.Some? ==> text == message.value
    ensures message.None? ==> text != ""
  {
    if message.Some? then message.value else "An error occurred"
  }

  /** The columns a stage write sets. A `None` completion time means the
      write does not mention `completed_date`. */
  datatype StagePatch = StagePatch(stage: Stage, completedDate: Option<Timestamp>)

  /** A request with the two columns a stage write may touch blanked out:
      two requests with the same `Unstaged` differ at most in those. */
  function Unstaged(r: MaintenanceRequest): MaintenanceRequest
  {
    r.(stage := New, completedDate := None)
  }

  function ApplyPatch(r: MaintenanceRequest, p: StagePatch): (r': MaintenanceRequest)
    ensures r'.stage == p.stage
    ensures p.completedDate.Some? ==> r'.completedDate == p.completedDate
    ensures p.completedDate.None? ==> r'.completedDate == r.completedDate
    ensures Unstaged(r') == Unstaged(r)
  {
    var staged := r.(stage := p.stage);
    if p.completedDate.Some? then staged.(completedDate := p.completedDate) else staged
  }

  /** The table after `update(patch).eq("id", id)` with the given outcome:
      an accepted write changes the row with that id, if there is one, and
      nothing else. */
  function Written(rows: map<string, MaintenanceRequest>, id: string, p: StagePatch, outcome: Outcome)
    : (rows': map<string, MaintenanceRequest>)
    ensures rows'.Keys == rows.Keys
    ensures forall k :: k in rows && k != id ==> rows'[k] == rows[k]
    ensures outcome.Rejected? || id !in rows ==> rows' == rows
    ensures outcome.Ok? && id in rows ==> rows'[id] == ApplyPatch(rows[id], p)
  {
    if outcome.Ok? && id in rows then rows[id := ApplyPatch(rows[id], p)] else rows
  }

  class Table {
    var rows: map<string, MaintenanceRequest>

    constructor (initial: map<string, MaintenanceRequest>)
      ensures rows == initial
    {
      rows := initial;
    }

    /** `from("maintenance_requests").update(patch).eq("id", id)`; `ok` is
        false exactly when the store returns an error. */
    method Update(id: string, p: StagePatch, outcome: Outcome) returns (ok: bool)
      modifies this
      ensures rows == Written(old(rows), id, p, outcome)
      ensures ok == outcome.Ok?
    {
      ok := outcome.Ok?;
      if ok && id in rows {
        rows := rows[id := ApplyPatch(rows[id], p)];
      }
    }
  }
}
