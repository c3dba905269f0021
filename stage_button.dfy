/** The buttons that advance a request through its workflow. A button is
    given the request's current stage and the stage it would move to, and
    renders only when that move is one the workflow offers; clicking it writes
    the new stage, and the completion time when the new stage is `repaired`. */
module StageButton {
  import opened Types
  import opened Store

  /** The workflow: new to in progress to repaired, with a side exit to scrap
      from every stage that is not an end state. */
  predicate CanAdvance(from: Stage, to: Stage)
  {
    || (from == New && to == InProgress)
    || (from == InProgress && to == Repaired)
    || (to == Scrap && from != Repaired && from != Scrap)
  }

  predicate IsTerminal(s: Stage)
  {
    s == Repaired || s == Scrap
  }

  /** The stage a button for `nextStage` moves to when it renders for a
      request in `currentStage`, or `None` when it renders nothing: the three
      show rules, and no entry for any other `nextStage`. */
  function ShownTarget(currentStage: string, nextStage: string): (t: Option<Stage>)
    ensures t.Some? ==> StageName(t.value) == nextStage && t.value != New
  {
    if nextStage == "in_progress" then
      (if currentStage == "new" then Some(InProgress) else None)
    else if nextStage == "repaired" then
      (if currentStage == "in_progress" then Some(Repaired) else None)
    else if nextStage == "scrap" then
      (if currentStage != "scrap" && currentStage != "repaired" then Some(Scrap) else None)
    else None
  }

  /** A button renders exactly for the moves the workflow allows, and then
      moves to the stage it is named for. */
  lemma ButtonFollowsWorkflow(current: Stage, nextStage: string)
    ensures ShownTarget(StageName(current), nextStage).Some?
        <==> ParseStage(nextStage).Some? && CanAdvance(current, ParseStage(nextStage).value)
    ensures ShownTarget(StageName(current), nextStage).Some?
        ==> ShownTarget(StageName(current), nextStage) == ParseStage(nextStage)
  {
  }

  /** Repaired and scrap are end states: no button renders for them, and
      every other stage has at least one. */
  lemma TerminalStagesOfferNothing(s: Stage)
    ensures IsTerminal(s) <==> forall next :: ShownTarget(StageName(s), next).None?
  {
    if !IsTerminal(s) {
      assert ShownTarget(StageName(s), "scrap") == Some(Scrap);
    }
  }

  /** The update `handleUpdate` sends: the new stage always, and the click
      time as `completed_date` when, and only when, the new stage is
      `repaired`. */
  function StageUpdate(nextStage: Stage, now: Timestamp): (p: StagePatch)
    ensures p.stage == nextStage
    ensures p.completedDate.Some? <==> nextStage == Repaired
    ensures p.completedDate.Some? ==> p.completedDate.value == now
  {
    StagePatch(nextStage, if nextStage == Repaired then Some(now) else None)
  }

  /** A repaired request carries a completion time no earlier than its
      creation. */
  predicate CompletionRecorded(r: MaintenanceRequest)
  {
    r.stage == Repaired ==> r.completedDate.Some? && r.completedDate.value >= r.createdAt
  }

  /** Every button write keeps `CompletionRecorded`, provided the clock does
      not read earlier than the request's creation. */
  lemma StageUpdateKeepsCompletion(r: MaintenanceRequest, nextStage: Stage, now: Timestamp)
    requires CompletionRecorded(r) && now >= r.createdAt
    ensures CompletionRecorded(ApplyPatch(r, StageUpdate(nextStage, now)))
  {
  }

  /** `handleUpdate`: builds the update, adding the completion time for
      `repaired`, and writes it to the row with `requestId`. The page is
      refreshed only after an accepted write; a rejected write leaves the
      table as it was. */
  method HandleUpdate(store: Table, requestId: string, nextStage: Stage, now: Timestamp, outcome: Outcome)
    returns (refreshed: bool)
    modifies store
    ensures store.rows == Written(old(store.rows), requestId, StageUpdate(nextStage, now), outcome)
    ensures refreshed <==> outcome.Ok?
  {
    var update := StagePatch(nextStage, None);
    if nextStage == Repaired {
      update := update.(completedDate := Some(now));
    }
    var ok := store.Update(requestId, update, outcome);
    refreshed := ok;
  }
}
