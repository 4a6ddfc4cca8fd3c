/**
 * The rule-bearing validators and save methods of recruitment/forms.py.
 *
 * A `clean()` method becomes a function from the cleaned values it reads to
 * the errors it reports; what Django would look up in the database (an open
 * position set, the skill-zone rows, the approved leaves) is passed in. The
 * save methods that rewrite an object or a choices list in place are methods
 * of small classes.
 */
module Forms {
  import opened Common
  import Pipeline

  const Required := "This field is required"
  const ChooseValid := "Choose valid choice"

  // ---------------------------------------------------------------------
  // CandidateCreationForm.save

  /** save() puts the candidate into onboarding exactly when this holds. */
  predicate HiredOnSave(c: Pipeline.Candidate, stages: map<int, Pipeline.Stage>)
    requires c.stage.Some? ==> c.stage.value in stages
  {
    c.stage.Some? && stages[c.stage.value].stageType == "hired" && !c.canceled
  }

  class CandidateCreationForm {
    var instance: Pipeline.Candidate

    constructor(instance: Pipeline.Candidate)
      ensures this.instance == instance
    {
      this.instance := instance;
    }

    /**
     * save(): hired and start_onboard both follow the stage; a posted job
     * position is looked up and stored. saved is false when that lookup
     * raises DoesNotExist, after the flags were already set on the instance.
     */
    method Save(stages: map<int, Pipeline.Stage>, postedJob: Option<int>, jobs: set<int>) returns (saved: bool)
      requires instance.stage.Some? ==> instance.stage.value in stages
      modifies this
      ensures instance.hired == HiredOnSave(old(instance), stages)
      ensures instance.startOnboard == HiredOnSave(old(instance), stages)
      ensures saved <==> postedJob.None? || postedJob.value in jobs
      ensures instance.jobPosition == if saved && postedJob.Some? then postedJob else old(instance).jobPosition
      ensures instance == old(instance).(hired := instance.hired, startOnboard := instance.startOnboard,
                                         jobPosition := instance.jobPosition)
    {
      var candidate := instance;
      candidate := candidate.(hired := false, startOnboard := false);
      if candidate.stage.Some? {
        if stages[candidate.stage.value].stageType == "hired" && !candidate.canceled {
          candidate := candidate.(hired := true, startOnboard := true);
        }
      }
      instance := candidate;
      if postedJob.Some? {
        if postedJob.value !in jobs {
          return false;
        }
        instance := instance.(jobPosition := postedJob);
      }
      return true;
    }
  }

  // ---------------------------------------------------------------------
  // CandidateCreationForm.clean

  /**
   * The outcome of clean(): the field errors left on the form (the
   * job_position_id one is popped for a named instance) and the errors of
   * the ValidationError it raises (none raised when empty).
   */
  datatype CreationCheck = CreationCheck(fieldErrors: set<string>, raised: map<string, string>)

  /**
   * recruitment is the cleaned recruitment's optional_resume, None when the
   * recruitment did not validate (the lookup then raises: result None). The
   * instance values are those of the record being edited, which Django
   * updates only after clean().
   */
  function CandidateCreationClean(resumeGiven: bool, recruitment: Option<bool>, instanceNamed: bool,
                                  instanceJob: Option<int>, postedJob: Option<string>, openPositions: set<int>,
                                  fieldErrors: set<string>): (r: Option<CreationCheck>)
    ensures r.None? <==> recruitment.None?
    ensures r.Some? ==> r.value.raised.Keys <= {"resume", "job_position_id"}
    ensures r.Some? ==> ("resume" in r.value.raised <==> !resumeGiven && !recruitment.value)
    ensures r.Some? && "resume" in r.value.raised ==> r.value.raised["resume"] == Required
    ensures r.Some? ==> ("job_position_id" in r.value.raised <==>
                          instanceNamed && (instanceJob.None? || instanceJob.value !in openPositions || postedJob == Some("")))
    ensures r.Some? && "job_position_id" in r.value.raised ==>
              r.value.raised["job_position_id"] ==
                (if instanceJob.None? || instanceJob.value !in openPositions then ChooseValid else Required)
    ensures r.Some? ==> r.value.fieldErrors == if instanceNamed then fieldErrors - {"job_position_id"} else fieldErrors
  {
    if recruitment.None? then None
    else
      var errors := if !resumeGiven && !recruitment.value then map["resume" := Required] else map[];
      var errors' :=
        if !instanceNamed then errors
        else
          var e1 := if instanceJob.None? || postedJob == Some("") then errors["job_position_id" := Required] else errors;
          if instanceJob.None? || instanceJob.value !in openPositions then e1["job_position_id" := ChooseValid] else e1;
      Some(CreationCheck(if instanceNamed then fieldErrors - {"job_position_id"} else fieldErrors, errors'))
  }

  // ---------------------------------------------------------------------
  // ApplicationForm.clean

  const AvatarPrefix := "https://ui-avatars.com/api/?name="

  datatype ApplicationCheck = Rejected(errors: map<string, string>) | Accepted(profile: Option<string>)

  /**
   * recruitment is the chosen recruitment's optional_resume, None when no
   * recruitment was chosen; mayAddCandidate is "there is a request and its user
   * has recruitment.add_candidate".
   */
  function ApplicationClean(name: string, resumeGiven: bool, recruitment: Option<bool>, profile: Option<string>,
                            mayAddCandidate: bool): (r: ApplicationCheck)
    ensures r.Rejected? <==> |name| > 100 || (recruitment.Some? && !resumeGiven && !recruitment.value)
    ensures r.Rejected? ==> r.errors.Keys <= {"name", "resume"}
    ensures r.Rejected? ==> ("name" in r.errors <==> |name| > 100)
    ensures r.Rejected? ==> ("resume" in r.errors <==> recruitment.Some? && !resumeGiven && !recruitment.value)
    ensures r.Accepted? && profile.None? && mayAddCandidate ==> r.profile == Some(AvatarPrefix + name)
    ensures r.Accepted? && (profile.Some? || !mayAddCandidate) ==> r.profile == profile
  {
    var e0: map<string, string> := map[];
    var e1 := if name != "" && |name| > 100 then e0["name" := "Name cannot exceed 100 characters."] else e0;
    var e2 := if recruitment.Some? && !resumeGiven && !recruitment.value then e1["resume" := Required] else e1;
    if e2 != map[] then
      assert "name" in e2 || "resume" in e2;
      Rejected(e2)
    else if profile.None? && mayAddCandidate then Accepted(Some(AvatarPrefix + name))
    else Accepted(profile)
  }

  /** The generated avatar URL carries the name, unescaped, after the fixed prefix. */
  lemma AvatarUrlNamesApplicant(name: string, resumeGiven: bool, recruitment: Option<bool>)
    requires ApplicationClean(name, resumeGiven, recruitment, None, true).Accepted?
    ensures var url := ApplicationClean(name, resumeGiven, recruitment, None, true).profile.value;
            |url| == |AvatarPrefix| + |name| && url[..|AvatarPrefix|] == AvatarPrefix && url[|AvatarPrefix|..] == name
  {
    var url := AvatarPrefix + name;
    assert url[..|AvatarPrefix|] == AvatarPrefix;
    assert url[|AvatarPrefix|..] == name;
  }

  /** Both forms apply the same résumé rule to a chosen recruitment. */
  lemma ResumeRuleAgrees(resumeGiven: bool, optionalResume: bool, instanceNamed: bool, instanceJob: Option<int>,
                         postedJob: Option<string>, openPositions: set<int>, fieldErrors: set<string>,
                         name: string, profile: Option<string>, mayAddCandidate: bool)
    ensures var c := CandidateCreationClean(resumeGiven, Some(optionalResume), instanceNamed, instanceJob, postedJob,
                                            openPositions, fieldErrors);
            var a := ApplicationClean(name, resumeGiven, Some(optionalResume), profile, mayAddCandidate);
            && ("resume" in c.value.raised <==> !resumeGiven && !optionalResume)
            && (a.Rejected? && "resume" in a.errors <==> !resumeGiven && !optionalResume)
  {
  }

  // ---------------------------------------------------------------------
  // RecruitmentCreationForm.clean

  datatype RecruitmentCheck = RecruitmentCheck(fieldErrors: set<string>, publishingError: bool)

  /**
   * With the multi-select manager widget, posted manager ids clear the
   * field's own error; publishing without an open position raises.
   */
  function RecruitmentClean(multiSelectManagers: bool, postedManagers: seq<int>, fieldErrors: set<string>,
                            isPublished: bool, openPositions: set<int>): (r: RecruitmentCheck)
    ensures r.publishingError <==> isPublished && openPositions == {}
    ensures multiSelectManagers && postedManagers != [] ==> "recruitment_managers" !in r.fieldErrors
    ensures r.fieldErrors <= fieldErrors
    ensures r.fieldErrors == fieldErrors - {"recruitment_managers"} || r.fieldErrors == fieldErrors
    ensures !multiSelectManagers || postedManagers == [] ==> r.fieldErrors == fieldErrors
  {
    var errors := if multiSelectManagers && postedManagers != [] then fieldErrors - {"recruitment_managers"} else fieldErrors;
    RecruitmentCheck(errors, isPublished && openPositions == {})
  }

  // ---------------------------------------------------------------------
  // QuestionForm

  predicate IsOptionType(questionType: string)
  {
    questionType == "options" || questionType == "multiple"
  }

  datatype QuestionCheck = QuestionValid | RecruitmentMissing | OptionsMissing

  /** clean(): a question needs a recruitment, and an options question needs options. */
  function QuestionClean(recruitments: set<int>, questionType: string, options: Option<string>): (r: QuestionCheck)
    ensures r == RecruitmentMissing <==> recruitments == {}
    ensures r == OptionsMissing <==> recruitments != {} && IsOptionType(questionType) && (options == None || options == Some(""))
  {
    if recruitments == {} then RecruitmentMissing
    else if IsOptionType(questionType) && (options == None || options == Some("")) then OptionsMissing
    else QuestionValid
  }

  predicate StartsWith(s: string, prefix: string)
  {
    |prefix| <= |s| && s[..|prefix|] == prefix
  }

  /** The non-empty values of the cleaned fields whose name starts with "options", in field order. */
  function OptionValues(items: seq<(string, string)>): (vs: seq<string>)
    ensures |vs| <= |items|
    ensures forall k :: 0 <= k < |vs| ==> vs[k] != ""
  {
    if items == [] then []
    else
      var rest := OptionValues(items[1..]);
      if StartsWith(items[0].0, "options") && items[0].1 != "" then [items[0].1] + rest else rest
  }

  /** A value is kept exactly when some options* field holds it. */
  lemma {:induction false} OptionValuesMembers(items: seq<(string, string)>, v: string)
    ensures v in OptionValues(items) <==>
              v != "" && exists k :: 0 <= k < |items| && StartsWith(items[k].0, "options") && items[k].1 == v
  {
    if items != [] {
      OptionValuesMembers(items[1..], v);
      assert forall k :: 1 <= k < |items| ==> items[k] == items[1..][k - 1];
      if v in OptionValues(items[1..]) {
        var k :| 0 <= k < |items[1..]| && StartsWith(items[1..][k].0, "options") && items[1..][k].1 == v;
        assert items[k + 1] == items[1..][k];
      }
    }
  }

  /** Field order is kept: the values of a + b are those of a followed by those of b. */
  lemma {:induction false} OptionValuesAppend(a: seq<(string, string)>, b: seq<(string, string)>)
    ensures OptionValues(a + b) == OptionValues(a) + OptionValues(b)
  {
    if a == [] {
      assert a + b == b;
    } else {
      assert (a + b)[0] == a[0];
      assert (a + b)[1..] == a[1..] + b;
      OptionValuesAppend(a[1..], b);
    }
  }

  /** save(): the options* values joined with ", " for an options question, "" otherwise. */
  method SaveOptions(questionType: string, items: seq<(string, string)>) returns (options: string)
    ensures options == if IsOptionType(questionType) then Join(OptionValues(items), ", ") else ""
  {
    if IsOptionType(questionType) {
      var additional: seq<string> := [];
      var k := 0;
      while k < |items|
        invariant 0 <= k <= |items|
        invariant additional + OptionValues(items[k..]) == OptionValues(items)
      {
        assert items[k..][0] == items[k] && items[k..][1..] == items[k + 1..];
        if StartsWith(items[k].0, "options") && items[k].1 != "" {
          additional := additional + [items[k].1];
        }
        k := k + 1;
      }
      assert items[k..] == [];
      assert additional == OptionValues(items);
      options := Join(additional, ", ");
    } else {
      options := "";
    }
  }

  lemma JoinKeepsHead(parts: seq<string>, sep: string)
    requires parts != []
    ensures |Join(parts, sep)| >= |parts[0]|
  {
  }

  /**
   * An options question that passed clean() with its "options" field
   * filled is saved with non-empty options.
   */
  lemma ValidQuestionKeepsOptions(recruitments: set<int>, questionType: string, items: seq<(string, string)>, k: nat)
    requires k < |items| && items[k].0 == "options"
    requires QuestionClean(recruitments, questionType, Some(items[k].1)) == QuestionValid
    requires IsOptionType(questionType)
    ensures Join(OptionValues(items), ", ") != ""
  {
    assert StartsWith(items[k].0, "options");
    OptionValuesMembers(items, items[k].1);
    var vs := OptionValues(items);
    JoinKeepsHead(vs, ", ");
  }

  // ---------------------------------------------------------------------
  // ToSkillZoneForm.clean

  /** A SkillZoneCandidate row; candidate None is a row without a candidate. */
  datatype ZoneRow = ZoneRow(candidate: Option<int>, zone: int)

  /**
   * The outcome of clean(): accepted, the ValidationError naming the
   * candidate and the zones, or the TypeError of iterating over a missing
   * selection.
   */
  datatype ZoneCheck = ZoneAccepted | AlreadyIn(candidate: Option<int>, zones: seq<int>) | SelectionTypeError

  /** The selected zones, in selection order, that already hold a row for candidate. */
  function Conflicts(rows: seq<ZoneRow>, candidate: Option<int>, selected: seq<int>): (zs: seq<int>)
    ensures forall z :: z in zs <==> z in selected && ZoneRow(candidate, z) in rows
    ensures |zs| <= |selected|
  {
    if selected == [] then []
    else
      var rest := Conflicts(rows, candidate, selected[1..]);
      if ZoneRow(candidate, selected[0]) in rows then [selected[0]] + rest else rest
  }

  function ZoneVerdict(rows: seq<ZoneRow>, candidate: Option<int>, selected: seq<int>): ZoneCheck
  {
    var zs := Conflicts(rows, candidate, selected);
    if zs == [] then ZoneAccepted else AlreadyIn(candidate, zs)
  }

  /** The loop of clean(), checking each selected zone for a row of the given candidate. */
  method CleanSkillZones(rows: seq<ZoneRow>, candidate: Option<int>, selected: seq<int>) returns (r: ZoneCheck)
    ensures r == ZoneVerdict(rows, candidate, selected)
  {
    var found: seq<int> := [];
    var k := |selected|;
    while k > 0
      invariant 0 <= k <= |selected|
      invariant found == Conflicts(rows, candidate, selected[k..])
    {
      k := k - 1;
      assert selected[k..][1..] == selected[k + 1..];
      if ZoneRow(candidate, selected[k]) in rows {
        found := [selected[k]] + found;
      }
    }
    assert selected[0..] == selected;
    if found == [] {
      r := ZoneAccepted;
    } else {
      r := AlreadyIn(candidate, found);
    }
  }

  /** The verdict rejects exactly when a selected zone already holds a row for the candidate. */
  lemma ZoneVerdictRejectsDuplicates(rows: seq<ZoneRow>, candidate: Option<int>, selected: seq<int>)
    ensures ZoneVerdict(rows, candidate, selected).AlreadyIn? <==>
              exists z :: z in selected && ZoneRow(candidate, z) in rows
  {
    var zs := Conflicts(rows, candidate, selected);
    if zs != [] {
      assert zs[0] in zs;
      assert zs[0] in selected && ZoneRow(candidate, zs[0]) in rows;
    } else {
      assert forall z :: z in selected ==> ZoneRow(candidate, z) !in rows;
    }
  }

  /**
   * clean() as written: candidate_id is excluded from the form's fields, so
   * cleaned_data.get("candidate_id") is None and only rows without a
   * candidate can trigger the error. selected is None when the required
   * skill_zone_ids field failed (nothing or an unknown zone posted); it is
   * then missing from cleaned_data and the loop over None raises TypeError.
   */
  method ToSkillZoneCleanAsWritten(rows: seq<ZoneRow>, selected: Option<seq<int>>) returns (r: ZoneCheck)
    ensures r == SelectionTypeError <==> selected.None?
    ensures r.AlreadyIn? <==> selected.Some? && exists z :: z in selected.value && ZoneRow(None, z) in rows
    ensures r.AlreadyIn? ==> r.candidate == None
  {
    if selected.None? {
      return SelectionTypeError;
    }
    r := CleanSkillZones(rows, None, selected.value);
    ZoneVerdictRejectsDuplicates(rows, None, selected.value);
  }

  /**
   * clean() as intended: it raises exactly when a selected zone already holds
   * the candidate being added, and lists those zones in selection order.
   */
  method ToSkillZoneClean(rows: seq<ZoneRow>, candidate: int, selected: seq<int>) returns (r: ZoneCheck)
    ensures r.AlreadyIn? <==> exists z :: z in selected && ZoneRow(Some(candidate), z) in rows
    ensures r.AlreadyIn? ==> r.candidate == Some(candidate)
                             && (forall z :: z in r.zones <==> z in selected && ZoneRow(Some(candidate), z) in rows)
  {
    r := CleanSkillZones(rows, Some(candidate), selected);
    ZoneVerdictRejectsDuplicates(rows, Some(candidate), selected);
  }

  /** Candidate 5 is already in zone 1; as written, adding it to zone 1 again passes clean(). */
  lemma AsWrittenMissesDuplicate()
    ensures ZoneVerdict([ZoneRow(Some(5), 1)], None, [1]) == ZoneAccepted
    ensures ZoneVerdict([ZoneRow(Some(5), 1)], Some(5), [1]) == AlreadyIn(Some(5), [1])
  {
    assert ZoneRow(None, 1) !in [ZoneRow(Some(5), 1)];
    assert Conflicts([ZoneRow(Some(5), 1)], Some(5), [1]) == [1];
  }

  // ---------------------------------------------------------------------
  // ScheduleInterviewForm.clean

  /** An approved-or-not leave request of an employee, with the dates it covers (as day numbers). */
  datatype Leave = Leave(employee: int, name: string, status: string, dates: set<int>)

  datatype InterviewCheck = InterviewCheck(pastDate: bool, pastTime: bool, onLeave: seq<string>)

  /** The names of the interviewers with an approved leave covering the interview date, in leave order. */
  function OnLeave(leaves: seq<Leave>, managers: set<int>, date: Option<int>): (names: seq<string>)
    ensures |names| <= |leaves|
  {
    if leaves == [] then []
    else
      var l := leaves[0];
      var rest := OnLeave(leaves[1..], managers, date);
      if l.employee in managers && l.status == "approved" && date.Some? && date.value in l.dates then [l.name] + rest
      else rest
  }

  lemma {:induction false} OnLeaveMembers(leaves: seq<Leave>, managers: set<int>, date: Option<int>, name: string)
    ensures name in OnLeave(leaves, managers, date) <==>
              exists k :: 0 <= k < |leaves| && leaves[k].name == name && leaves[k].employee in managers
                          && leaves[k].status == "approved" && date.Some? && date.value in leaves[k].dates
  {
    if leaves != [] {
      OnLeaveMembers(leaves[1..], managers, date, name);
      assert forall k :: 1 <= k < |leaves| ==> leaves[k] == leaves[1..][k - 1];
      if name in OnLeave(leaves[1..], managers, date) {
        var k :| 0 <= k < |leaves[1..]| && leaves[1..][k].name == name && leaves[1..][k].employee in managers
                 && leaves[1..][k].status == "approved" && date.Some? && date.value in leaves[1..][k].dates;
        assert leaves[k + 1] == leaves[1..][k];
      }
    }
  }

  /**
   * clean(): dates are day numbers and times microseconds of the day, the
   * resolution of datetime.now().time(); today and now are what
   * date.today() and datetime.now() return. Only an interview
   * without a primary key gets the past-date and past-time errors.
   */
  function InterviewClean(hasPk: bool, date: Option<int>, time: Option<int>, today: int, now: int,
                          managers: set<int>, leaveInstalled: bool, leaves: seq<Leave>): (r: InterviewCheck)
    ensures r.pastDate <==> !hasPk && date.Some? && date.value < today
    ensures r.pastTime <==> !hasPk && time.Some? && date == Some(today) && time.value < now
    ensures hasPk ==> !r.pastDate && !r.pastTime
    ensures !leaveInstalled || date.None? ==> r.onLeave == []
    ensures leaveInstalled ==> r.onLeave == OnLeave(leaves, managers, date)
  {
    var pastDate := !hasPk && date.Some? && date.value < today;
    var pastTime := !hasPk && time.Some? && date == Some(today) && time.value < now;
    var onLeave := if leaveInstalled then OnLeave(leaves, managers, date) else [];
    assert date.None? ==> OnLeave(leaves, managers, date) == [] by {
      if date.None? && OnLeave(leaves, managers, date) != [] {
        OnLeaveMembers(leaves, managers, date, OnLeave(leaves, managers, date)[0]);
      }
    }
    InterviewCheck(pastDate, pastTime, onLeave)
  }

  // ---------------------------------------------------------------------
  // CandidateRegistrationForm

  datatype Choice = Choice(value: string, caption: string)

  function EmptyChoice(caption: string): Choice
  {
    Choice("", "---Choose " + caption + "---")
  }

  /** The select fields __init__ gives an empty first choice, with their labels. */
  const ChoiceLabels: seq<(string, string)> := [
    ("gender", "Gender"),
    ("preferred_contact_method", "Contact Method"),
    ("education_degree", "Degree"),
    ("licensure_type", "Licensure"),
    ("how_heard_about_psn", "Source"),
    ("reference1_type", "Type"),
    ("reference2_type", "Type")]

  /** One field's choices after __init__: the empty choice prepended unless already there. */
  function WithEmptyChoice(choices: seq<Choice>, caption: string): (r: seq<Choice>)
    ensures EmptyChoice(caption) in r
    ensures EmptyChoice(caption) !in choices ==> r == [EmptyChoice(caption)] + choices
    ensures EmptyChoice(caption) in choices ==> r == choices
  {
    if EmptyChoice(caption) in choices then choices else [EmptyChoice(caption)] + choices
  }

  function AddEmptyChoice(fields: map<string, seq<Choice>>, entry: (string, string)): map<string, seq<Choice>>
  {
    if entry.0 in fields then fields[entry.0 := WithEmptyChoice(fields[entry.0], entry.1)] else fields
  }

  /** The choices of every field after the loop of __init__ over labels. */
  function EmptyChoicesAdded(fields: map<string, seq<Choice>>, labels: seq<(string, string)>): map<string, seq<Choice>>
  {
    if labels == [] then fields else EmptyChoicesAdded(AddEmptyChoice(fields, labels[0]), labels[1..])
  }

  predicate DistinctNames(labels: seq<(string, string)>)
  {
    forall i, j :: 0 <= i < j < |labels| ==> labels[i].0 != labels[j].0
  }

  /** The caption listed for a field, if any. */
  function LabelFor(labels: seq<(string, string)>, name: string): Option<string>
  {
    if labels == [] then None
    else if labels[0].0 == name then Some(labels[0].1)
    else LabelFor(labels[1..], name)
  }

  /**
   * With distinct field names, every listed field gets its own empty choice
   * (prepended when absent), and every other field keeps its choices.
   */
  lemma {:induction false} EmptyChoicesAddedSpec(fields: map<string, seq<Choice>>, labels: seq<(string, string)>)
    requires DistinctNames(labels)
    ensures EmptyChoicesAdded(fields, labels).Keys == fields.Keys
    ensures forall name :: name in fields ==>
              EmptyChoicesAdded(fields, labels)[name] ==
                (if LabelFor(labels, name).Some? then WithEmptyChoice(fields[name], LabelFor(labels, name).value)
                 else fields[name])
  {
    if labels != [] {
      var next := AddEmptyChoice(fields, labels[0]);
      assert DistinctNames(labels[1..]) by {
        forall i, j | 0 <= i < j < |labels[1..]|
          ensures labels[1..][i].0 != labels[1..][j].0
        {
          assert labels[1..][i] == labels[i + 1] && labels[1..][j] == labels[j + 1];
        }
      }
      EmptyChoicesAddedSpec(next, labels[1..]);
      assert LabelFor(labels[1..], labels[0].0).None? by {
        NotListedLater(labels, labels[0].0);
      }
    }
  }

  lemma {:induction false} NotListedLater(labels: seq<(string, string)>, name: string)
    requires labels != [] && DistinctNames(labels) && labels[0].0 == name
    ensures LabelFor(labels[1..], name).None?
  {
    LabelForListed(labels[1..], name);
    assert forall k :: 0 <= k < |labels[1..]| ==> labels[1..][k].0 == labels[k + 1].0 != name;
  }

  lemma {:induction false} LabelForListed(labels: seq<(string, string)>, name: string)
    ensures LabelFor(labels, name).Some? ==> exists k :: 0 <= k < |labels| && labels[k].0 == name
  {
    if labels != [] && labels[0].0 != name {
      LabelForListed(labels[1..], name);
      if LabelFor(labels[1..], name).Some? {
        var k :| 0 <= k < |labels[1..]| && labels[1..][k].0 == name;
        assert labels[k + 1].0 == name;
      }
    } else if labels != [] {
      assert labels[0].0 == name;
    }
  }

  lemma ChoiceLabelsDistinct()
    ensures DistinctNames(ChoiceLabels)
  {
  }

  /** Running __init__'s loop a second time changes no choices list. */
  lemma EmptyChoicesIdempotent(fields: map<string, seq<Choice>>)
    ensures EmptyChoicesAdded(EmptyChoicesAdded(fields, ChoiceLabels), ChoiceLabels)
            == EmptyChoicesAdded(fields, ChoiceLabels)
  {
    ChoiceLabelsDistinct();
    var once := EmptyChoicesAdded(fields, ChoiceLabels);
    EmptyChoicesAddedSpec(fields, ChoiceLabels);
    EmptyChoicesAddedSpec(once, ChoiceLabels);
    var twice := EmptyChoicesAdded(once, ChoiceLabels);
    assert forall name :: name in twice ==> twice[name] == once[name];
  }

  class RegistrationChoices {
    var choices: map<string, seq<Choice>>

    constructor(choices: map<string, seq<Choice>>)
      ensures this.choices == choices
    {
      this.choices := choices;
    }

    /** The loop of CandidateRegistrationForm.__init__ over ChoiceLabels. */
    method AddEmptyChoices()
      modifies this
      ensures choices == EmptyChoicesAdded(old(choices), ChoiceLabels)
    {
      var k := 0;
      while k < |ChoiceLabels|
        invariant 0 <= k <= |ChoiceLabels|
        invariant EmptyChoicesAdded(choices, ChoiceLabels[k..]) == EmptyChoicesAdded(old(choices), ChoiceLabels)
      {
        assert ChoiceLabels[k..][0] == ChoiceLabels[k] && ChoiceLabels[k..][1..] == ChoiceLabels[k + 1..];
        ghost var before := choices;
        var (name, caption) := ChoiceLabels[k];
        if name in choices {
          var current := choices[name];
          var empty := Choice("", "---Choose " + caption + "---");
          if empty !in current {
            choices := choices[name := [empty] + current];
          }
        }
        assert choices == AddEmptyChoice(before, ChoiceLabels[k]);
        k := k + 1;
      }
    }
  }

  /** The candidate fields CandidateRegistrationForm.save sets beyond the plain copies. */
  datatype Registration = Registration(recruitment: Option<int>, jobPosition: Option<int>, stage: Option<int>, source: string)

  /**
   * save() on a fresh Candidate: source "application", and, when a
   * recruitment was chosen, the first of its "initial" stages in table order.
   */
  function RegistrationSave(recruitment: Option<int>, jobPosition: Option<int>, order: seq<int>,
                            stages: map<int, Pipeline.Stage>): (r: Registration)
    ensures r.source == "application" && r.recruitment == recruitment && r.jobPosition == jobPosition
    ensures r.stage.Some? ==> recruitment.Some? && r.stage.value in stages
                              && stages[r.stage.value].recruitment == recruitment.value
                              && stages[r.stage.value].stageType == "initial"
    ensures recruitment.None? ==> r.stage.None?
    ensures recruitment.Some? && r.stage.None? ==>
              forall k :: 0 <= k < |order| && order[k] in stages ==>
                !(stages[order[k]].recruitment == recruitment.value && stages[order[k]].stageType == "initial")
    ensures recruitment.Some? ==> r.stage == Pipeline.FirstInitialStage(order, stages, recruitment.value)
  {
    var stage := if recruitment.Some? then Pipeline.FirstInitialStage(order, stages, recruitment.value) else None;
    Registration(recruitment, jobPosition, stage, "application")
  }

  /**
   * An applicant registering for a recruitment lands in the stage the
   * candidate create view would give a stage-less candidate of it.
   */
  lemma RegistrationStageAsCreated(c: Pipeline.Candidate, jobPosition: Option<int>, order: seq<int>,
                                   stages: map<int, Pipeline.Stage>, onboarding: bool)
    requires c.stage.None?
    ensures RegistrationSave(Some(c.recruitment), jobPosition, order, stages).stage
            == Pipeline.CreateCandidate(c, order, stages, onboarding, true).value.stage
  {
  }
}
