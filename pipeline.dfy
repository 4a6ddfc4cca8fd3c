/**
 * The recruitment pipeline: moving candidates between stages and ordering
 * candidates and stages (recruitment/views/views.py).
 *
 * The candidate and stage tables are the maps of a `Store`, keyed by primary
 * key. A lookup that Django performs with `.get()` raises when the key is
 * missing; that outcome is `Raised` here. What the views ask of the session
 * cache, of `is_vacancy_filled()` and of the permission checks is passed in.
 */
module Pipeline {
  import opened Common

  datatype Stage = Stage(recruitment: int, stageType: string, sequence: Option<int>, isActive: bool)

  /** A row of a candidate's history: the stage it was in and the interview date it had there. */
  datatype HistoryEntry = HistoryEntry(stage: int, scheduleDate: Option<int>)

  datatype Candidate = Candidate(
    recruitment: int,
    jobPosition: Option<int>,
    stage: Option<int>,
    hired: bool,
    canceled: bool,
    startOnboard: bool,
    scheduleDate: Option<int>,
    sequence: int,
    source: string,
    history: seq<HistoryEntry>)

  // ---------------------------------------------------------------------
  // candidate_stage_update: the permission gate.

  datatype Gate = Allow | Deny | TypeErrorRaised

  /**
   * The gate as written at views.py:864-869: the third operand calls
   * is_recruitmentmanager without its required request argument, so it
   * raises whenever the first two are false.
   */
  function AsWrittenGate(stageManagerHere: bool, superuser: bool): (g: Gate)
    ensures g == Allow <==> stageManagerHere || superuser
    ensures g != Deny
  {
    if stageManagerHere || superuser then Allow else TypeErrorRaised
  }

  /** The gate as evidently intended: a manager of the stage's recruitment is let in too. */
  function IntendedGate(stageManagerHere: bool, superuser: bool, recruitmentManager: bool): (g: Gate)
    ensures g == Allow <==> stageManagerHere || superuser || recruitmentManager
    ensures g == Deny <==> !(stageManagerHere || superuser || recruitmentManager)
  {
    if stageManagerHere || superuser || recruitmentManager then Allow else Deny
  }

  /**
   * A recruitment manager who manages no stage of the recruitment and is no
   * superuser gets a TypeError where the intended gate lets them in, and
   * nobody can ever get the "danger" reply.
   */
  lemma AsWrittenGateRaisesForRecruitmentManager()
    ensures AsWrittenGate(false, false) == TypeErrorRaised
    ensures IntendedGate(false, false, true) == Allow
    ensures forall m, s :: AsWrittenGate(m, s) != Deny
  {
  }

  /** The two gates agree whenever the third operand is not reached. */
  lemma GatesAgreeWhenShortCircuited(stageManagerHere: bool, superuser: bool, recruitmentManager: bool)
    requires stageManagerHere || superuser
    ensures AsWrittenGate(stageManagerHere, superuser) == IntendedGate(stageManagerHere, superuser, recruitmentManager)
  {
  }

  // ---------------------------------------------------------------------
  // candidate_stage_update: the move.

  /** No entry before index k is for the stage. */
  predicate NoneBefore(history: seq<HistoryEntry>, stageId: int, k: nat)
    requires k <= |history|
  {
    forall j :: 0 <= j < k ==> history[j].stage != stageId
  }

  /** The schedule date of the first history entry for the stage, or None when there is none. */
  function ScheduleDateFor(history: seq<HistoryEntry>, stageId: int): (d: Option<int>)
    ensures NoneBefore(history, stageId, |history|) ==> d == None
    ensures forall k :: (0 <= k < |history| && history[k].stage == stageId && NoneBefore(history, stageId, k))
                          ==> d == history[k].scheduleDate
  {
    if history == [] then None
    else if history[0].stage == stageId then history[0].scheduleDate
    else
      var rest := history[1..];
      assert forall k :: 1 <= k <= |history| && NoneBefore(history, stageId, k) ==> NoneBefore(rest, stageId, k - 1);
      ScheduleDateFor(rest, stageId)
  }

  datatype Reply = NoChange | Success | Danger | Raised

  datatype StageMove = StageMove(reply: Reply, candidate: Candidate)

  /**
   * What candidate_stage_update does to a candidate once both records are
   * found: no change when it is already in the stage; otherwise, when let
   * in, it takes the stage, hired and canceled from the stage type, the
   * schedule date recorded for that stage, and start_onboard False. The
   * stage need not belong to the candidate's recruitment.
   */
  function MoveToStage(c: Candidate, stageId: int, s: Stage, gate: Gate): (m: StageMove)
    ensures c.stage == Some(stageId) ==> m == StageMove(NoChange, c)
    ensures c.stage != Some(stageId) && gate == Allow ==>
              && m.reply == Success
              && m.candidate.stage == Some(stageId)
              && (m.candidate.hired <==> s.stageType == "hired")
              && (m.candidate.canceled <==> s.stageType == "cancelled")
              && !m.candidate.startOnboard
              && m.candidate.scheduleDate == ScheduleDateFor(c.history, stageId)
              && m.candidate.recruitment == c.recruitment
              && m.candidate.jobPosition == c.jobPosition
              && m.candidate.sequence == c.sequence
              && m.candidate.history == c.history
              && m.candidate.source == c.source
    ensures c.stage != Some(stageId) && gate == Deny ==> m == StageMove(Danger, c)
    ensures c.stage != Some(stageId) && gate == TypeErrorRaised ==> m == StageMove(Raised, c)
  {
    if c.stage == Some(stageId) then StageMove(NoChange, c)
    else
      match gate
      case Allow =>
        StageMove(Success, c.(stage := Some(stageId),
                              hired := s.stageType == "hired",
                              canceled := s.stageType == "cancelled",
                              scheduleDate := ScheduleDateFor(c.history, stageId),
                              startOnboard := false))
      case Deny => StageMove(Danger, c)
      case TypeErrorRaised => StageMove(Raised, c)
  }

  /** Dropping a candidate on the stage it was just moved to changes nothing more. */
  lemma MoveToStageTwice(c: Candidate, stageId: int, s: Stage, gate: Gate, gate': Gate)
    ensures var m := MoveToStage(c, stageId, s, gate);
            m.reply == Success ==> MoveToStage(m.candidate, stageId, s, gate') == StageMove(NoChange, m.candidate)
  {
  }

  // ---------------------------------------------------------------------
  // Ordering helpers.

  /** The last position of x in xs. */
  function LastIndex(xs: seq<int>, x: int): (k: nat)
    requires x in xs
    ensures k < |xs| && xs[k] == x && forall j :: k < j < |xs| ==> xs[j] != x
  {
    if xs[|xs| - 1] == x then |xs| - 1 else LastIndex(xs[..|xs| - 1], x)
  }

  /**
   * update_candidate_sequence's loop: each listed id found in the cached
   * candidate set gets its index as sequence and the looked-up stage (which
   * may be None), in list order.
   */
  function Reordered(cands: map<int, Candidate>, order: seq<int>, cached: set<int>, stage: Option<int>): map<int, Candidate>
  {
    if order == [] then cands
    else
      var m := Reordered(cands, order[..|order| - 1], cached, stage);
      var id := order[|order| - 1];
      if id in cached && id in m then m[id := m[id].(sequence := |order| - 1, stage := stage)] else m
  }

  /**
   * After the loop, a listed candidate of the cached set has its last index
   * in the list as sequence and the target stage, and nothing else of it
   * changed; every other candidate is untouched; no key is added or removed.
   */
  lemma {:induction false} ReorderedSpec(cands: map<int, Candidate>, order: seq<int>, cached: set<int>, stage: Option<int>)
    ensures Reordered(cands, order, cached, stage).Keys == cands.Keys
    ensures forall id :: id in cands && id in order && id in cached ==>
              Reordered(cands, order, cached, stage)[id] == cands[id].(sequence := LastIndex(order, id), stage := stage)
    ensures forall id :: id in cands && !(id in order && id in cached) ==>
              Reordered(cands, order, cached, stage)[id] == cands[id]
  {
    if order != [] {
      var pre := order[..|order| - 1];
      ReorderedSpec(cands, pre, cached, stage);
      assert order == pre + [order[|order| - 1]];
      forall id | id in cands && id in order && id in cached && id != order[|order| - 1]
        ensures LastIndex(order, id) == LastIndex(pre, id)
      {
        assert id in pre;
      }
    }
  }

  /** Rerunning the loop with the same list and stage gives the same table. */
  lemma ReorderedIdempotent(cands: map<int, Candidate>, order: seq<int>, cached: set<int>, stage: Option<int>)
    ensures Reordered(Reordered(cands, order, cached, stage), order, cached, stage) == Reordered(cands, order, cached, stage)
  {
    var once := Reordered(cands, order, cached, stage);
    var twice := Reordered(once, order, cached, stage);
    ReorderedSpec(cands, order, cached, stage);
    ReorderedSpec(once, order, cached, stage);
    forall id | id in once ensures twice[id] == once[id] {
      if id in order && id in cached {
        assert once[id] == cands[id].(sequence := LastIndex(order, id), stage := stage);
      }
    }
    assert twice.Keys == once.Keys;
  }

  /** What update_candidate_stage_and_sequence answers after its loop. */
  datatype SequenceReply = Plain | VacancyFilled(vacancy: int) | AttributeErrorRaised

  function StageSequenceReply(stage: Option<Stage>, vacancyFilled: bool, vacancy: int): (r: SequenceReply)
    ensures r == AttributeErrorRaised <==> stage.None?
    ensures r.VacancyFilled? <==> stage.Some? && stage.value.stageType == "hired" && vacancyFilled
    ensures r.VacancyFilled? ==> r.vacancy == vacancy
  {
    match stage
    case None => AttributeErrorRaised
    case Some(s) => if s.stageType == "hired" && vacancyFilled then VacancyFilled(vacancy) else Plain
  }

  /** change_candidate_stage, per listed id. */
  datatype MoveOutcome = CandidateNotFound | StageNotInRecruitment | Moved

  /** The stage lookup of change_candidate_stage: the stage, only if it belongs to the candidate's recruitment. */
  predicate StageFits(stages: map<int, Stage>, stageId: int, c: Candidate)
  {
    stageId in stages && stages[stageId].recruitment == c.recruitment
  }

  /** One turn of change_candidate_stage's loop. */
  function MoveOne(cands: map<int, Candidate>, id: int, stageId: int, stages: map<int, Stage>): map<int, Candidate>
  {
    if id in cands && StageFits(stages, stageId, cands[id]) then cands[id := cands[id].(stage := Some(stageId))] else cands
  }

  function MovedAll(cands: map<int, Candidate>, ids: seq<int>, stageId: int, stages: map<int, Stage>): map<int, Candidate>
  {
    if ids == [] then cands
    else MoveOne(MovedAll(cands, ids[..|ids| - 1], stageId, stages), ids[|ids| - 1], stageId, stages)
  }

  /**
   * After change_candidate_stage, every listed candidate whose recruitment
   * owns the stage is in that stage, with nothing else changed (hired,
   * canceled, schedule date and the rest stay as they were); every other
   * candidate is untouched.
   */
  lemma {:induction false} MovedAllSpec(cands: map<int, Candidate>, ids: seq<int>, stageId: int, stages: map<int, Stage>)
    ensures MovedAll(cands, ids, stageId, stages).Keys == cands.Keys
    ensures forall id :: id in cands ==>
              MovedAll(cands, ids, stageId, stages)[id]
              == if id in ids && StageFits(stages, stageId, cands[id]) then cands[id].(stage := Some(stageId)) else cands[id]
  {
    if ids != [] {
      var pre := ids[..|ids| - 1];
      MovedAllSpec(cands, pre, stageId, stages);
      assert ids == pre + [ids[|ids| - 1]];
    }
  }

  /** Earlier moves change neither which candidates exist nor their recruitments, so not an id's outcome. */
  lemma MovedAllOutcome(cands: map<int, Candidate>, ids: seq<int>, id: int, stageId: int, stages: map<int, Stage>)
    ensures MoveOutcomeOf(MovedAll(cands, ids, stageId, stages), id, stageId, stages) == MoveOutcomeOf(cands, id, stageId, stages)
  {
    MovedAllSpec(cands, ids, stageId, stages);
  }

  function MoveOutcomeOf(cands: map<int, Candidate>, id: int, stageId: int, stages: map<int, Stage>): MoveOutcome
  {
    if id !in cands then CandidateNotFound
    else if StageFits(stages, stageId, cands[id]) then Moved
    else StageNotInRecruitment
  }

  /** A dictionary update: the items of the decoded JSON dict, in insertion order (keys distinct). */
  function SequencesApplied<T>(table: map<int, T>, pairs: seq<(int, int)>, setSequence: (T, int) -> T): (r: map<int, T>)
    requires forall k :: 0 <= k < |pairs| ==> pairs[k].0 in table
    ensures r.Keys == table.Keys
  {
    if pairs == [] then table
    else
      var m := SequencesApplied(table, pairs[..|pairs| - 1], setSequence);
      var (id, s) := pairs[|pairs| - 1];
      m[id := setSequence(m[id], s)]
  }

  /** The index of the first pair whose key is missing from the table, or |pairs|. */
  function FirstMissing<T>(table: map<int, T>, pairs: seq<(int, int)>): (n: nat)
    ensures n <= |pairs|
    ensures forall k :: 0 <= k < n ==> pairs[k].0 in table
    ensures n < |pairs| ==> pairs[n].0 !in table
  {
    if pairs == [] then 0
    else if pairs[0].0 !in table then 0
    else 1 + FirstMissing(table, pairs[1..])
  }

  /** With distinct keys all present, each listed row ends up with its own new sequence and the rest are untouched. */
  lemma {:induction false} SequencesAppliedSpec<T>(table: map<int, T>, pairs: seq<(int, int)>, setSequence: (T, int) -> T)
    requires forall k :: 0 <= k < |pairs| ==> pairs[k].0 in table
    requires forall i, j :: 0 <= i < j < |pairs| ==> pairs[i].0 != pairs[j].0
    ensures forall k :: 0 <= k < |pairs| ==>
              SequencesApplied(table, pairs, setSequence)[pairs[k].0] == setSequence(table[pairs[k].0], pairs[k].1)
    ensures forall id :: id in table && (forall k :: 0 <= k < |pairs| ==> pairs[k].0 != id) ==>
              SequencesApplied(table, pairs, setSequence)[id] == table[id]
  {
    if pairs != [] {
      var pre := pairs[..|pairs| - 1];
      SequencesAppliedSpec(table, pre, setSequence);
      assert forall k :: 0 <= k < |pre| ==> pre[k] == pairs[k];
    }
  }

  function SetCandidateSequence(c: Candidate, s: int): Candidate { c.(sequence := s) }

  function SetStageSequence(st: Stage, s: int): Stage { st.(sequence := Some(s)) }

  // ---------------------------------------------------------------------
  // The tables.

  class Store {
    var candidates: map<int, Candidate>
    var stages: map<int, Stage>

    constructor(candidates: map<int, Candidate>, stages: map<int, Stage>)
      ensures this.candidates == candidates && this.stages == stages
    {
      this.candidates := candidates;
      this.stages := stages;
    }

    /**
     * candidate_stage_update(cand_id) with stageId posted. The two permission
     * checks that run are given as booleans and combined as written: when
     * both are false the third check raises TypeError before any change.
     */
    method CandidateStageUpdate(candId: int, stageId: int, stageManagerHere: bool, superuser: bool)
      returns (reply: Reply)
      modifies this
      ensures stages == old(stages)
      ensures candId !in old(candidates) || stageId !in old(stages) ==> reply == Raised && candidates == old(candidates)
      ensures candId in old(candidates) && stageId in old(stages) ==>
                var m := MoveToStage(old(candidates)[candId], stageId, old(stages)[stageId],
                                     AsWrittenGate(stageManagerHere, superuser));
                reply == m.reply && candidates == old(candidates)[candId := m.candidate]
    {
      if candId !in candidates || stageId !in stages {
        return Raised;
      }
      var c := candidates[candId];
      var s := stages[stageId];
      if c.stage == Some(stageId) {
        return NoChange;
      }
      var scheduleDate := ScheduleDateFor(c.history, stageId);
      var gate := AsWrittenGate(stageManagerHere, superuser);
      if gate == Allow {
        c := c.(stage := Some(stageId));
        c := c.(hired := s.stageType == "hired");
        c := c.(canceled := s.stageType == "cancelled");
        c := c.(scheduleDate := scheduleDate);
        c := c.(startOnboard := false);
        candidates := candidates[candId := c];
        return Success;
      }
      return Raised;
    }

    /**
     * The loop of update_candidate_sequence (also the first half of
     * update_candidate_stage_and_sequence): cached holds the ids the
     * session's candidate set can still see; the stage is looked up in the
     * session's stage set and may be missing.
     */
    method UpdateCandidateSequence(order: seq<int>, stageId: int, cachedCandidates: set<int>, cachedStages: set<int>)
      modifies this
      ensures stages == old(stages)
      ensures candidates == Reordered(old(candidates), order, cachedCandidates,
                                      if stageId in cachedStages && stageId in old(stages) then Some(stageId) else None)
    {
      var stage := if stageId in cachedStages && stageId in stages then Some(stageId) else None;
      var index := 0;
      while index < |order|
        invariant 0 <= index <= |order|
        invariant stages == old(stages)
        invariant candidates == Reordered(old(candidates), order[..index], cachedCandidates, stage)
      {
        var candId := order[index];
        assert order[..index + 1][..index] == order[..index];
        if candId in cachedCandidates && candId in candidates {
          candidates := candidates[candId := candidates[candId].(sequence := index, stage := stage)];
        }
        index := index + 1;
      }
      assert order[..index] == order;
    }

    /** update_candidate_stage_and_sequence: the loop, then the vacancy message (which raises when the stage was not found). */
    method UpdateCandidateStageAndSequence(order: seq<int>, stageId: int, cachedCandidates: set<int>, cachedStages: set<int>,
                                           vacancyFilled: bool, vacancy: int)
      returns (reply: SequenceReply)
      modifies this
      ensures stages == old(stages)
      ensures var found := stageId in cachedStages && stageId in old(stages);
              && candidates == Reordered(old(candidates), order, cachedCandidates, if found then Some(stageId) else None)
              && reply == StageSequenceReply(if found then Some(old(stages)[stageId]) else None, vacancyFilled, vacancy)
    {
      UpdateCandidateSequence(order, stageId, cachedCandidates, cachedStages);
      var stage := if stageId in cachedStages && stageId in stages then Some(stages[stageId]) else None;
      match stage {
        case None =>
          reply := AttributeErrorRaised;
        case Some(s) =>
          reply := Plain;
          if s.stageType == "hired" {
            if vacancyFilled {
              reply := VacancyFilled(vacancy);
            }
          }
      }
    }

    /**
     * change_candidate_stage, POST: each id (one for the single form, the
     * JSON list for the bulk form) is looked up; a missing one is reported
     * and skipped.
     */
    method ChangeCandidateStage(ids: seq<int>, stageId: int, vacancyFilled: bool, vacancy: int)
      returns (outcomes: seq<MoveOutcome>, message: Option<int>)
      modifies this
      ensures stages == old(stages)
      ensures candidates == MovedAll(old(candidates), ids, stageId, old(stages))
      ensures |outcomes| == |ids|
      ensures forall k :: 0 <= k < |ids| ==> outcomes[k] == MoveOutcomeOf(old(candidates), ids[k], stageId, old(stages))
      ensures message.Some? <==> (exists k :: 0 <= k < |ids| && outcomes[k] == Moved)
                                 && stageId in stages && stages[stageId].stageType == "hired" && vacancyFilled
      ensures message.Some? ==> message.value == vacancy
    {
      outcomes := [];
      message := None;
      ghost var moved := false;
      var k := 0;
      while k < |ids|
        invariant 0 <= k <= |ids|
        invariant stages == old(stages)
        invariant candidates == MovedAll(old(candidates), ids[..k], stageId, stages)
        invariant |outcomes| == k
        invariant forall j :: 0 <= j < k ==> outcomes[j] == MoveOutcomeOf(old(candidates), ids[j], stageId, stages)
        invariant moved <==> exists j :: 0 <= j < k && outcomes[j] == Moved
        invariant message.Some? <==> moved && stageId in stages && stages[stageId].stageType == "hired" && vacancyFilled
        invariant message.Some? ==> message.value == vacancy
      {
        assert ids[..k + 1][..k] == ids[..k];
        MovedAllOutcome(old(candidates), ids[..k], ids[k], stageId, stages);
        var outcome := MoveCandidate(ids[k], stageId);
        if outcome == Moved {
          if stages[stageId].stageType == "hired" {
            if vacancyFilled {
              message := Some(vacancy);
            }
          }
          moved := true;
        }
        outcomes := outcomes + [outcome];
        k := k + 1;
      }
      assert ids[..k] == ids;
    }

    /** The body of change_candidate_stage's loop for one id. */
    method MoveCandidate(id: int, stageId: int) returns (outcome: MoveOutcome)
      modifies this
      ensures stages == old(stages)
      ensures candidates == MoveOne(old(candidates), id, stageId, stages)
      ensures outcome == MoveOutcomeOf(old(candidates), id, stageId, stages)
    {
      if id !in candidates {
        return CandidateNotFound;
      }
      if StageFits(stages, stageId, candidates[id]) {
        candidates := candidates[id := candidates[id].(stage := Some(stageId))];
        return Moved;
      }
      return StageNotInRecruitment;
    }

    /** change_candidate_stage, GET: the same move for one id; a missing candidate raises (false). */
    method ChangeCandidateStageGet(candId: int, stageId: int) returns (found: bool)
      modifies this
      ensures stages == old(stages)
      ensures found <==> candId in old(candidates)
      ensures candidates == MovedAll(old(candidates), [candId], stageId, old(stages))
    {
      if candId !in candidates {
        return false;
      }
      if StageFits(stages, stageId, candidates[candId]) {
        candidates := candidates[candId := candidates[candId].(stage := Some(stageId))];
      }
      assert [candId][..0] == [];
      return true;
    }

    /**
     * candidate_sequence_update: the pairs are applied in order; the first
     * id with no candidate raises, after the earlier updates were saved.
     */
    method CandidateSequenceUpdate(pairs: seq<(int, int)>) returns (completed: bool)
      modifies this
      ensures stages == old(stages)
      ensures var n := FirstMissing(old(candidates), pairs);
              && (completed <==> n == |pairs|)
              && candidates == SequencesApplied(old(candidates), pairs[..n], SetCandidateSequence)
    {
      var k := 0;
      while k < |pairs|
        invariant 0 <= k <= |pairs|
        invariant stages == old(stages)
        invariant forall j :: 0 <= j < k ==> pairs[j].0 in old(candidates)
        invariant candidates == SequencesApplied(old(candidates), pairs[..k], SetCandidateSequence)
        invariant candidates.Keys == old(candidates).Keys
      {
        var (id, s) := pairs[k];
        assert pairs[..k + 1][..k] == pairs[..k];
        if id !in candidates {
          assert FirstMissingAt(old(candidates), pairs, k);
          return false;
        }
        candidates := candidates[id := SetCandidateSequence(candidates[id], s)];
        k := k + 1;
      }
      assert pairs[..k] == pairs;
      assert FirstMissingAt(old(candidates), pairs, k);
      return true;
    }

    /** stage_sequence_update: the same for stages. */
    method StageSequenceUpdate(pairs: seq<(int, int)>) returns (completed: bool)
      modifies this
      ensures candidates == old(candidates)
      ensures var n := FirstMissing(old(stages), pairs);
              && (completed <==> n == |pairs|)
              && stages == SequencesApplied(old(stages), pairs[..n], SetStageSequence)
    {
      var k := 0;
      while k < |pairs|
        invariant 0 <= k <= |pairs|
        invariant candidates == old(candidates)
        invariant forall j :: 0 <= j < k ==> pairs[j].0 in old(stages)
        invariant stages == SequencesApplied(old(stages), pairs[..k], SetStageSequence)
        invariant stages.Keys == old(stages).Keys
      {
        var (id, s) := pairs[k];
        assert pairs[..k + 1][..k] == pairs[..k];
        if id !in stages {
          assert FirstMissingAt(old(stages), pairs, k);
          return false;
        }
        stages := stages[id := SetStageSequence(stages[id], s)];
        k := k + 1;
      }
      assert pairs[..k] == pairs;
      assert FirstMissingAt(old(stages), pairs, k);
      return true;
    }
  }

  /** n is where FirstMissing stops when the keys before n are present and n is missing or the end. */
  predicate FirstMissingAt<T>(table: map<int, T>, pairs: seq<(int, int)>, n: nat)
    requires n <= |pairs|
  {
    (forall j :: 0 <= j < n ==> pairs[j].0 in table) && (n < |pairs| ==> pairs[n].0 !in table)
    ==> FirstMissing(table, pairs) == n
  }

  lemma {:induction false} FirstMissingUnique<T>(table: map<int, T>, pairs: seq<(int, int)>, n: nat)
    requires n <= |pairs|
    ensures FirstMissingAt(table, pairs, n)
  {
    if pairs != [] && n > 0 && pairs[0].0 in table {
      FirstMissingUnique(table, pairs[1..], n - 1);
    }
  }

  // ---------------------------------------------------------------------
  // Stage sequences.

  /**
   * The sequence a new stage gets in the stage view: one more than the
   * sequence of the last active stage of its recruitment ordered by
   * sequence (the new stage itself included), or 1 when that sequence is
   * null. Whether null sorts last depends on the database (nullsLast).
   * None: no active stage at all, and reading `.sequence` of None raises.
   */
  function NewStageSequence(sequences: seq<Option<int>>, nullsLast: bool): (r: Option<int>)
    ensures r.None? <==> sequences == []
    ensures r.Some? && nullsLast && (exists k :: 0 <= k < |sequences| && sequences[k].None?) ==> r == Some(1)
    ensures r.Some? && !(nullsLast && exists k :: 0 <= k < |sequences| && sequences[k].None?) ==>
              if exists k :: 0 <= k < |sequences| && sequences[k].Some? then
                && (exists k :: 0 <= k < |sequences| && sequences[k].Some? && r.value == sequences[k].value + 1)
                && (forall k :: 0 <= k < |sequences| && sequences[k].Some? ==> sequences[k].value < r.value)
              else r == Some(1)
  {
    if sequences == [] then None
    else if nullsLast && exists k :: 0 <= k < |sequences| && sequences[k].None? then Some(1)
    else
      match MaxSequence(sequences)
      case None => Some(1)
      case Some(m) => Some(m + 1)
  }

  /** order_by("sequence") on a nullable column: where null goes depends on nullsLast. */
  predicate SequenceLe(a: Option<int>, b: Option<int>, nullsLast: bool)
  {
    match (a, b)
    case (None, None) => true
    case (None, Some(_)) => !nullsLast
    case (Some(_), None) => nullsLast
    case (Some(x), Some(y)) => x <= y
  }

  /** The stages in the order the database returns them for order_by("sequence"). */
  predicate OrderedBySequence(sequences: seq<Option<int>>, nullsLast: bool)
  {
    forall i, j :: 0 <= i < j < |sequences| ==> SequenceLe(sequences[i], sequences[j], nullsLast)
  }

  /**
   * The new sequence is what the view reads off `.last()` of the ordered
   * stages: that stage's sequence + 1, or 1 when it is null.
   */
  lemma NewStageSequenceOfLast(sequences: seq<Option<int>>, nullsLast: bool)
    requires sequences != [] && OrderedBySequence(sequences, nullsLast)
    ensures NewStageSequence(sequences, nullsLast)
            == match sequences[|sequences| - 1]
               case None => Some(1)
               case Some(v) => Some(v + 1)
  {
    var n := |sequences|;
    var last := sequences[n - 1];
    assert forall i :: 0 <= i < n - 1 ==> SequenceLe(sequences[i], last, nullsLast);
    match last
    case None =>
      if !nullsLast {
        assert forall i :: 0 <= i < n ==> sequences[i].None?;
      }
    case Some(v) =>
      assert forall i :: 0 <= i < n && sequences[i].Some? ==> sequences[i].value <= v;
      if nullsLast {
        assert forall i :: 0 <= i < n ==> sequences[i].Some?;
      }
      var m := MaxSequence(sequences);
      assert m.Some? && m.value >= v;
  }

  /** The largest non-null sequence. */
  function MaxSequence(sequences: seq<Option<int>>): (m: Option<int>)
    ensures m.None? <==> forall k :: 0 <= k < |sequences| ==> sequences[k].None?
    ensures m.Some? ==> forall k :: 0 <= k < |sequences| && sequences[k].Some? ==> sequences[k].value <= m.value
    ensures m.Some? ==> exists k :: 0 <= k < |sequences| && sequences[k] == m
  {
    if sequences == [] then None
    else
      var rest := MaxSequence(sequences[1..]);
      assert forall k :: 1 <= k < |sequences| ==> sequences[k] == sequences[1..][k - 1];
      match sequences[0]
      case None => rest
      case Some(s) =>
        if rest.None? || rest.value <= s then Some(s) else rest
  }

  /** StageDropDownForm: one more than the sequence of the last stage of all, or 1 when there is none or it is null. */
  function DropDownSequence(last: Option<Stage>): (r: int)
    ensures last.Some? && last.value.sequence.Some? ==> r == last.value.sequence.value + 1
    ensures last.None? || last.value.sequence.None? ==> r == 1
  {
    if last.Some? && last.value.sequence.Some? then last.value.sequence.value + 1 else 1
  }

  // ---------------------------------------------------------------------
  // Stage defaulting in the candidate create and update views.

  /** A stage of recruitment rec whose type is "initial". */
  predicate InitialOf(stages: map<int, Stage>, id: int, rec: int)
  {
    id in stages && stages[id].recruitment == rec && stages[id].stageType == "initial"
  }

  /** Stage.objects.filter(recruitment_id=rec, stage_type="initial").first(), with order the table's order. */
  function FirstInitialStage(order: seq<int>, stages: map<int, Stage>, rec: int): (r: Option<int>)
    ensures r.Some? ==> exists i :: 0 <= i < |order| && order[i] == r.value && InitialOf(stages, order[i], rec)
                                    && forall j :: 0 <= j < i ==> !InitialOf(stages, order[j], rec)
    ensures r.None? ==> forall k :: 0 <= k < |order| ==> !InitialOf(stages, order[k], rec)
  {
    if order == [] then None
    else if InitialOf(stages, order[0], rec) then Some(order[0])
    else
      var r := FirstInitialStage(order[1..], stages, rec);
      assert forall k :: 1 <= k < |order| ==> order[k] == order[1..][k - 1];
      if r.Some? then
        var i :| 0 <= i < |order[1..]| && order[1..][i] == r.value && InitialOf(stages, order[1..][i], rec)
                 && forall j :: 0 <= j < i ==> !InitialOf(stages, order[1..][j], rec);
        assert order[i + 1] == r.value && forall j :: 0 <= j < i + 1 ==> !InitialOf(stages, order[j], rec);
        r
      else r
  }

  /** Whatever the table holds, the first initial stage in its order is the one chosen. */
  lemma {:induction false} FirstInitialStageIsFirst(order: seq<int>, stages: map<int, Stage>, rec: int, i: nat)
    requires i < |order| && InitialOf(stages, order[i], rec)
    requires forall j :: 0 <= j < i ==> !InitialOf(stages, order[j], rec)
    ensures FirstInitialStage(order, stages, rec) == Some(order[i])
  {
    if i > 0 {
      assert !InitialOf(stages, order[0], rec);
      FirstInitialStageIsFirst(order[1..], stages, rec, i - 1);
    }
  }

  /**
   * The candidate view after CandidateCreationForm.save(commit=False):
   * start_onboard False, source "software", a missing stage replaced by the
   * recruitment's first initial stage, hired forced on when the request
   * comes from the onboarding view; the record is saved only when a job
   * position was posted (None otherwise).
   */
  function CreateCandidate(c: Candidate, order: seq<int>, stages: map<int, Stage>, onboarding: bool, jobPositionPosted: bool)
    : (r: Option<Candidate>)
    ensures r.Some? <==> jobPositionPosted
    ensures r.Some? ==>
              && !r.value.startOnboard
              && r.value.source == "software"
              && (c.stage.Some? ==> r.value.stage == c.stage)
              && (c.stage.None? ==> r.value.stage == FirstInitialStage(order, stages, c.recruitment))
              && (r.value.hired <==> c.hired || onboarding)
              && r.value.recruitment == c.recruitment && r.value.canceled == c.canceled
              && r.value.jobPosition == c.jobPosition && r.value.sequence == c.sequence
              && r.value.scheduleDate == c.scheduleDate && r.value.history == c.history
  {
    var c1 := c.(startOnboard := false, source := "software");
    var c2 := if c1.stage.None? then c1.(stage := FirstInitialStage(order, stages, c1.recruitment)) else c1;
    var c3 := if onboarding then c2.(hired := true) else c2;
    if jobPositionPosted then Some(c3) else None
  }

  /** A candidate created without a stage lands in an initial stage of its own recruitment, if it has one. */
  lemma CreatedStageIsInitial(c: Candidate, order: seq<int>, stages: map<int, Stage>, onboarding: bool)
    requires c.stage.None?
    ensures var r := CreateCandidate(c, order, stages, onboarding, true).value;
            && (r.stage.Some? ==> InitialOf(stages, r.stage.value, c.recruitment))
            && (r.stage.None? ==> forall k :: 0 <= k < |order| ==> !InitialOf(stages, order[k], c.recruitment))
  {
  }

  /**
   * The stage repair of candidate_update, after the form has saved the
   * record: a missing stage, or one of another recruitment, becomes the
   * recruitment's first initial stage; hired is forced on from the
   * onboarding view.
   */
  function RepairStage(c: Candidate, order: seq<int>, stages: map<int, Stage>, onboarding: bool): (r: Candidate)
    requires c.stage.Some? ==> c.stage.value in stages
    ensures r.stage.Some? ==> r.stage.value in stages && stages[r.stage.value].recruitment == c.recruitment
    ensures c.stage.Some? && stages[c.stage.value].recruitment == c.recruitment ==> r.stage == c.stage
    ensures c.stage.None? || stages[c.stage.value].recruitment != c.recruitment ==>
              r.stage == FirstInitialStage(order, stages, c.recruitment)
    ensures r.hired <==> c.hired || onboarding
    ensures r == c.(stage := r.stage, hired := r.hired)
  {
    var c1 := if c.stage.None? then c.(stage := FirstInitialStage(order, stages, c.recruitment)) else c;
    var c2 := if c1.stage.Some? && stages[c1.stage.value].recruitment != c1.recruitment
              then c1.(stage := FirstInitialStage(order, stages, c1.recruitment))
              else c1;
    if onboarding then c2.(hired := true) else c2
  }

  /** Updating a second time with the same inputs changes nothing more. */
  lemma RepairStageIdempotent(c: Candidate, order: seq<int>, stages: map<int, Stage>, onboarding: bool)
    requires c.stage.Some? ==> c.stage.value in stages
    ensures var r := RepairStage(c, order, stages, onboarding);
            RepairStage(r, order, stages, onboarding) == r
  {
    var r := RepairStage(c, order, stages, onboarding);
    if r.stage.None? {
      assert FirstInitialStage(order, stages, c.recruitment) == None;
    }
  }
}
