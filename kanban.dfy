/** The board of requests in four stage columns. The board keeps its own list
    of requests and the id of the card being dragged; dropping the card on a
    column writes that stage to the store and, once the store accepts, moves
    the card in the local list. */
module Kanban {
  import opened Types
  import opened Store
  import StageButton

  /** The columns, left to right. */
  const Stages: seq<Stage> := [New, InProgress, Repaired, Scrap]

  lemma StagesListEveryStageOnce(s: Stage)
    ensures |Stages| == 4
    ensures exists i :: 0 <= i < 4 && Stages[i] == s
    ensures forall i, j :: 0 <= i < j < 4 ==> Stages[i] != Stages[j]
  {
    match s
    case New => assert Stages[0] == s;
    case InProgress => assert Stages[1] == s;
    case Repaired => assert Stages[2] == s;
    case Scrap => assert Stages[3] == s;
  }

  /** `getRequestsByStage`: the requests in stage `s`, in list order. */
  function Column(rs: seq<MaintenanceRequest>, s: Stage): (col: seq<MaintenanceRequest>)
    ensures |col| <= |rs|
    ensures forall r :: r in col <==> r in rs && r.stage == s
  {
    if rs == [] then []
    else if rs[0].stage == s then [rs[0]] + Column(rs[1..], s)
    else Column(rs[1..], s)
  }

  /** `filter` keeps list order: the column of a concatenation is the column
      of each part, one after the other. */
  lemma {:induction false} ColumnAppend(a: seq<MaintenanceRequest>, b: seq<MaintenanceRequest>, s: Stage)
    ensures Column(a + b, s) == Column(a, s) + Column(b, s)
  {
    if a != [] {
      assert (a + b)[1..] == a[1..] + b;
      ColumnAppend(a[1..], b, s);
    } else {
      assert a + b == b;
    }
  }

  /** The four columns, in board order. */
  function Columns(rs: seq<MaintenanceRequest>): (cols: seq<seq<MaintenanceRequest>>)
    ensures |cols| == 4
    ensures forall i, r :: 0 <= i < 4 && r in rs ==> (r in cols[i] <==> r.stage == Stages[i])
    ensures forall i, r :: 0 <= i < 4 && r in cols[i] ==> r in rs
  {
    seq(4, i requires 0 <= i < 4 => Column(rs, Stages[i]))
  }

  /** The columns share out the list: their sizes add up to its length. */
  lemma {:induction false} ColumnsPartition(rs: seq<MaintenanceRequest>)
    ensures |Column(rs, New)| + |Column(rs, InProgress)| + |Column(rs, Repaired)| + |Column(rs, Scrap)| == |rs|
  {
    if rs != [] {
      ColumnsPartition(rs[1..]);
    }
  }

  /** `isOverdue`: a scheduled time in the past on a request that is neither
      repaired nor scrapped. */
  predicate IsOverdue(r: MaintenanceRequest, now: Timestamp)
    ensures IsOverdue(r, now) ==> r.scheduledDate.Some? && r.scheduledDate.value < now
    ensures r.stage == Repaired || r.stage == Scrap ==> !IsOverdue(r, now)
  {
    if r.scheduledDate.None? then false
    else r.scheduledDate.value < now && r.stage != Repaired && r.stage != Scrap
  }

  /** Overdue means scheduled, past due and not in an end state of the
      workflow. */
  lemma OverdueMeansPastDueAndOpen(r: MaintenanceRequest, now: Timestamp)
    ensures IsOverdue(r, now)
        <==> r.scheduledDate.Some? && r.scheduledDate.value < now && !StageButton.IsTerminal(r.stage)
  {
  }

  /** A request that is overdue stays overdue as time goes on, as long as
      its stage does not change. */
  lemma OverdueStaysOverdue(r: MaintenanceRequest, now: Timestamp, later: Timestamp)
    requires IsOverdue(r, now) && now <= later
    ensures IsOverdue(r, later)
  {
  }

  /** The list after the card with `id` lands in column `s`: every request
      keeps its place and every column other than the stage; only requests
      with that id take the new stage. */
  function MoveToStage(rs: seq<MaintenanceRequest>, id: string, s: Stage): (out: seq<MaintenanceRequest>)
    ensures |out| == |rs|
    ensures forall i :: 0 <= i < |rs| ==> out[i].(stage := rs[i].stage) == rs[i]
    ensures forall i :: 0 <= i < |rs| ==> out[i].stage == if rs[i].id == id then s else rs[i].stage
  {
    seq(|rs|, i requires 0 <= i < |rs| => if rs[i].id == id then rs[i].(stage := s) else rs[i])
  }

  /** Only the last of two drops of the same card counts. */
  lemma {:induction false} LaterDropWins(rs: seq<MaintenanceRequest>, id: string, s1: Stage, s2: Stage)
    ensures MoveToStage(MoveToStage(rs, id, s1), id, s2) == MoveToStage(rs, id, s2)
  {
    var once := MoveToStage(rs, id, s1);
    var twice := MoveToStage(once, id, s2);
    var direct := MoveToStage(rs, id, s2);
    forall i | 0 <= i < |rs|
      ensures twice[i] == direct[i]
    {
      assert once[i].id == rs[i].id;
    }
  }

  /** After a drop the moved card is in the target column, and a card with
      another id stays in the column of its old stage. */
  lemma {:induction false} DropLandsInColumn(rs: seq<MaintenanceRequest>, id: string, s: Stage, i: nat)
    requires i < |rs|
    ensures rs[i].id == id ==> MoveToStage(rs, id, s)[i] in Column(MoveToStage(rs, id, s), s)
    ensures rs[i].id != id ==> rs[i] in Column(MoveToStage(rs, id, s), rs[i].stage)
  {
    var out := MoveToStage(rs, id, s);
    assert out[i] in out;
    if rs[i].id != id {
      assert out[i] == rs[i];
    }
  }

  /** A drop writes only the stage: a card reaches any column from any
      stage, including moves the workflow buttons never offer, and a card
      dropped on the repaired column keeps whatever completion time it had,
      so a new request dropped there has none and breaks
      `CompletionRecorded`. */
  lemma DropSkipsWorkflow(r: MaintenanceRequest, s: Stage)
    ensures var moved := MoveToStage([r], r.id, s)[0];
      moved.stage == s && moved.completedDate == r.completedDate
    ensures r.stage == New && r.completedDate.None? && s == Repaired ==>
      && !StageButton.CanAdvance(r.stage, s)
      && !StageButton.CompletionRecorded(MoveToStage([r], r.id, s)[0])
  {
  }

  class Board {
    var requests: seq<MaintenanceRequest>
    var dragged: Option<string>

    constructor (initialRequests: seq<MaintenanceRequest>)
      ensures requests == initialRequests && dragged == None
    {
      requests := initialRequests;
      dragged := None;
    }

    /** `handleDragStart`. */
    method DragStart(id: string)
      modifies this
      ensures dragged == Some(id) && requests == old(requests)
    {
      dragged := Some(id);
    }

    /** `handleDrop`. Without a dragged id (or with the empty id, which is
        falsy) nothing happens at all. Otherwise the stage alone is written
        to the store; the local list changes only when the store accepts the
        write, and the dragged id is cleared either way. */
    method Drop(stage: Stage, store: Table, outcome: Outcome) returns (refreshed: bool)
      modifies this, store
      ensures old(dragged).None? || old(dragged) == Some("") ==>
        && requests == old(requests) && dragged == old(dragged)
        && store.rows == old(store.rows) && !refreshed
      ensures old(dragged).Some? && old(dragged) != Some("") ==>
        && dragged == None
        && store.rows == Written(old(store.rows), old(dragged).value, StagePatch(stage, None), outcome)
        && requests == (if outcome.Ok? then MoveToStage(old(requests), old(dragged).value, stage) else old(requests))
        && refreshed == outcome.Ok?
    {
      refreshed := false;
      if dragged.None? || dragged.value == "" {
        return;
      }
      var id := dragged.value;
      var ok := store.Update(id, StagePatch(stage, None), outcome);
      if ok {
        requests := MoveToStage(requests, id, stage);
        refreshed := true;
      }
      dragged := None;
    }
  }
}
