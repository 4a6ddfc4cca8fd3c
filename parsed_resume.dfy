/**
 * ParsedResumeDetailsForm (recruitment/forms.py): the edit form for the
 * details a résumé parser produced.
 *
 * `__init__` turns the stored details into numbered form fields
 * (`education_degree_0`, `skill_3`, `summary`, ...). `save` reads them back
 * with index counters that run from 0 until the first missing field. Field
 * names are the structured `FieldName` here: the formatted string of a
 * (kind, index) pair stands for that pair and nothing else.
 */
module ParsedResume {
  import opened Common

  /** An education item: a dictionary with the four known keys, or free text. */
  datatype Education =
    | EducationEntry(degree: string, institution: string, years: string, concentration: string)
    | EducationNote(text: string)

  /** An experience item: a dictionary with the three known keys, or free text. */
  datatype Experience =
    | ExperienceEntry(title: string, company: string, years: string)
    | ExperienceNote(text: string)

  /** The ParsedResumeDetails record. */
  datatype Details = Details(
    education: seq<Education>,
    skills: seq<string>,
    experience: seq<Experience>,
    certifications: seq<string>,
    summary: string)

  datatype Kind =
    | DegreeField | InstitutionField | EducationYearsField | ConcentrationField | EducationTextField
    | SkillField
    | TitleField | CompanyField | ExperienceYearsField | ExperienceTextField
    | CertificationField

  datatype FieldName = Indexed(kind: Kind, index: nat) | Summary

  /** cleaned_data restricted to the string fields this form declares. */
  type Fields = map<FieldName, string>

  /** cleaned_data.get(f, '') */
  function Get(data: Fields, f: FieldName): string
  {
    if f in data then data[f] else ""
  }

  // ---------------------------------------------------------------------
  // Termination of the index counters: each step consumes a present field.

  /** A number above every index used by a field of data. */
  ghost function Bound(data: Fields): (b: nat)
    ensures forall f :: f in data && f.Indexed? ==> f.index < b
  {
    IndexBound(data.Keys)
  }

  ghost function IndexBound(names: set<FieldName>): (b: nat)
    ensures forall f :: f in names && f.Indexed? ==> f.index < b
    decreases names
  {
    if names == {} then 0
    else
      var f :| f in names;
      var b := IndexBound(names - {f});
      if f.Indexed? && f.index >= b then f.index + 1 else b
  }

  // ---------------------------------------------------------------------
  // What save() collects, as functions of cleaned_data.

  predicate EducationPresent(data: Fields, i: nat)
  {
    Indexed(DegreeField, i) in data || Indexed(EducationTextField, i) in data
  }

  /** What one index of the education counter appends: a dictionary of stripped values unless all are empty, else a non-empty stripped text. */
  function EducationAt(data: Fields, i: nat): seq<Education>
  {
    if Indexed(DegreeField, i) in data then
      var e := EducationEntry(
        Strip(Get(data, Indexed(DegreeField, i))), Strip(Get(data, Indexed(InstitutionField, i))),
        Strip(Get(data, Indexed(EducationYearsField, i))), Strip(Get(data, Indexed(ConcentrationField, i))));
      if e.degree != "" || e.institution != "" || e.years != "" || e.concentration != "" then [e] else []
    else if Indexed(EducationTextField, i) in data then
      var t := Strip(Get(data, Indexed(EducationTextField, i)));
      if t != "" then [EducationNote(t)] else []
    else
      []
  }

  /** The education items save() appends from index i on. */
  function EducationFrom(data: Fields, i: nat): seq<Education>
    decreases Bound(data) - i
  {
    if EducationPresent(data, i) then EducationAt(data, i) + EducationFrom(data, i + 1) else []
  }

  predicate ExperiencePresent(data: Fields, i: nat)
  {
    Indexed(TitleField, i) in data || Indexed(ExperienceTextField, i) in data
  }

  function ExperienceAt(data: Fields, i: nat): seq<Experience>
  {
    if Indexed(TitleField, i) in data then
      var e := ExperienceEntry(
        Strip(Get(data, Indexed(TitleField, i))), Strip(Get(data, Indexed(CompanyField, i))),
        Strip(Get(data, Indexed(ExperienceYearsField, i))));
      if e.title != "" || e.company != "" || e.years != "" then [e] else []
    else if Indexed(ExperienceTextField, i) in data then
      var t := Strip(Get(data, Indexed(ExperienceTextField, i)));
      if t != "" then [ExperienceNote(t)] else []
    else
      []
  }

  /** The experience items save() appends from index i on. */
  function ExperienceFrom(data: Fields, i: nat): seq<Experience>
    decreases Bound(data) - i
  {
    if ExperiencePresent(data, i) then ExperienceAt(data, i) + ExperienceFrom(data, i + 1) else []
  }

  function StringAt(data: Fields, kind: Kind, i: nat): seq<string>
  {
    var s := Strip(Get(data, Indexed(kind, i)));
    if s != "" then [s] else []
  }

  /** The skill (or certification) strings save() appends from index i on. */
  function StringsFrom(data: Fields, kind: Kind, i: nat): seq<string>
    decreases Bound(data) - i
  {
    if Indexed(kind, i) in data then StringAt(data, kind, i) + StringsFrom(data, kind, i + 1) else []
  }

  /** The record save() writes: every list rebuilt, the summary stripped. */
  function Saved(data: Fields): Details
  {
    Details(EducationFrom(data, 0), StringsFrom(data, SkillField, 0), ExperienceFrom(data, 0),
            StringsFrom(data, CertificationField, 0), Strip(Get(data, Summary)))
  }

  // ---------------------------------------------------------------------
  // The loops of save().

  /** One pass of the education loop body. */
  method ReadEducation(data: Fields, i: nat) returns (items: seq<Education>)
    requires EducationPresent(data, i)
    ensures items == EducationAt(data, i)
  {
    items := [];
    if Indexed(DegreeField, i) in data {
      var degree := Strip(Get(data, Indexed(DegreeField, i)));
      var institution := Strip(Get(data, Indexed(InstitutionField, i)));
      var years := Strip(Get(data, Indexed(EducationYearsField, i)));
      var concentration := Strip(Get(data, Indexed(ConcentrationField, i)));
      if degree != "" || institution != "" || years != "" || concentration != "" {
        items := [EducationEntry(degree, institution, years, concentration)];
      }
    } else {
      var text := Strip(Get(data, Indexed(EducationTextField, i)));
      if text != "" {
        items := [EducationNote(text)];
      }
    }
  }

  method SaveEducation(data: Fields) returns (education: seq<Education>)
    ensures education == EducationFrom(data, 0)
  {
    education := [];
    var i := 0;
    while EducationPresent(data, i)
      invariant education + EducationFrom(data, i) == EducationFrom(data, 0)
      decreases Bound(data) - i
    {
      var items := ReadEducation(data, i);
      education := education + items;
      i := i + 1;
    }
  }

  /** One pass of the experience loop body. */
  method ReadExperience(data: Fields, i: nat) returns (items: seq<Experience>)
    requires ExperiencePresent(data, i)
    ensures items == ExperienceAt(data, i)
  {
    items := [];
    if Indexed(TitleField, i) in data {
      var title := Strip(Get(data, Indexed(TitleField, i)));
      var company := Strip(Get(data, Indexed(CompanyField, i)));
      var years := Strip(Get(data, Indexed(ExperienceYearsField, i)));
      if title != "" || company != "" || years != "" {
        items := [ExperienceEntry(title, company, years)];
      }
    } else {
      var text := Strip(Get(data, Indexed(ExperienceTextField, i)));
      if text != "" {
        items := [ExperienceNote(text)];
      }
    }
  }

  method SaveExperience(data: Fields) returns (experience: seq<Experience>)
    ensures experience == ExperienceFrom(data, 0)
  {
    experience := [];
    var i := 0;
    while ExperiencePresent(data, i)
      invariant experience + ExperienceFrom(data, i) == ExperienceFrom(data, 0)
      decreases Bound(data) - i
    {
      var items := ReadExperience(data, i);
      experience := experience + items;
      i := i + 1;
    }
  }

  /** One pass of the skills (or certifications) loop body. */
  method ReadString(data: Fields, kind: Kind, i: nat) returns (items: seq<string>)
    ensures items == StringAt(data, kind, i)
  {
    items := [];
    var s := Strip(Get(data, Indexed(kind, i)));
    if s != "" {
      items := [s];
    }
  }

  /** The skills and the certifications loops. */
  method SaveStrings(data: Fields, kind: Kind) returns (items: seq<string>)
    ensures items == StringsFrom(data, kind, 0)
  {
    items := [];
    var i := 0;
    while Indexed(kind, i) in data
      invariant items + StringsFrom(data, kind, i) == StringsFrom(data, kind, 0)
      decreases Bound(data) - i
    {
      var more := ReadString(data, kind, i);
      items := items + more;
      i := i + 1;
    }
  }

  /** The ParsedResumeDetails rows, one per candidate. */
  class DetailsTable {
    var rows: map<int, Details>

    constructor(rows: map<int, Details>)
      ensures this.rows == rows
    {
      this.rows := rows;
    }

    /** save(candidate): get_or_create the row, then overwrite every field of it. */
    method Save(candidate: int, data: Fields)
      modifies this
      ensures rows == old(rows)[candidate := Saved(data)]
    {
      var education := SaveEducation(data);
      var skills := SaveStrings(data, SkillField);
      var experience := SaveExperience(data);
      var certifications := SaveStrings(data, CertificationField);
      rows := rows[candidate := Details(education, skills, experience, certifications, Strip(Get(data, Summary)))];
    }
  }

  // ---------------------------------------------------------------------
  // What save() keeps.

  predicate Kept(s: string) { s != "" && IsStripped(s) }

  predicate KeptEducation(e: Education)
  {
    match e
    case EducationEntry(a, b, c, d) =>
      IsStripped(a) && IsStripped(b) && IsStripped(c) && IsStripped(d) && (a != "" || b != "" || c != "" || d != "")
    case EducationNote(t) => Kept(t)
  }

  predicate KeptExperience(e: Experience)
  {
    match e
    case ExperienceEntry(a, b, c) => IsStripped(a) && IsStripped(b) && IsStripped(c) && (a != "" || b != "" || c != "")
    case ExperienceNote(t) => Kept(t)
  }

  /** Details in the shape save() produces: stripped values, no all-empty item, a stripped summary. */
  predicate Normalised(d: Details)
  {
    && (forall k :: 0 <= k < |d.education| ==> KeptEducation(d.education[k]))
    && (forall k :: 0 <= k < |d.skills| ==> Kept(d.skills[k]))
    && (forall k :: 0 <= k < |d.experience| ==> KeptExperience(d.experience[k]))
    && (forall k :: 0 <= k < |d.certifications| ==> Kept(d.certifications[k]))
    && IsStripped(d.summary)
  }

  lemma EducationAtKept(data: Fields, i: nat)
    ensures forall k :: 0 <= k < |EducationAt(data, i)| ==> KeptEducation(EducationAt(data, i)[k])
  {
    StripIsStripped(Get(data, Indexed(DegreeField, i)));
    StripIsStripped(Get(data, Indexed(InstitutionField, i)));
    StripIsStripped(Get(data, Indexed(EducationYearsField, i)));
    StripIsStripped(Get(data, Indexed(ConcentrationField, i)));
    StripIsStripped(Get(data, Indexed(EducationTextField, i)));
  }

  lemma ExperienceAtKept(data: Fields, i: nat)
    ensures forall k :: 0 <= k < |ExperienceAt(data, i)| ==> KeptExperience(ExperienceAt(data, i)[k])
  {
    StripIsStripped(Get(data, Indexed(TitleField, i)));
    StripIsStripped(Get(data, Indexed(CompanyField, i)));
    StripIsStripped(Get(data, Indexed(ExperienceYearsField, i)));
    StripIsStripped(Get(data, Indexed(ExperienceTextField, i)));
  }

  lemma {:induction false} EducationFromKept(data: Fields, i: nat)
    ensures forall k :: 0 <= k < |EducationFrom(data, i)| ==> KeptEducation(EducationFrom(data, i)[k])
    decreases Bound(data) - i
  {
    if EducationPresent(data, i) {
      EducationAtKept(data, i);
      EducationFromKept(data, i + 1);
    }
  }

  lemma {:induction false} ExperienceFromKept(data: Fields, i: nat)
    ensures forall k :: 0 <= k < |ExperienceFrom(data, i)| ==> KeptExperience(ExperienceFrom(data, i)[k])
    decreases Bound(data) - i
  {
    if ExperiencePresent(data, i) {
      ExperienceAtKept(data, i);
      ExperienceFromKept(data, i + 1);
    }
  }

  lemma {:induction false} StringsFromKept(data: Fields, kind: Kind, i: nat)
    ensures forall k :: 0 <= k < |StringsFrom(data, kind, i)| ==> Kept(StringsFrom(data, kind, i)[k])
    decreases Bound(data) - i
  {
    if Indexed(kind, i) in data {
      StringsFromKept(data, kind, i + 1);
      StripIsStripped(Get(data, Indexed(kind, i)));
    }
  }

  /** Whatever was submitted, the saved record is normalised. */
  lemma SavedIsNormalised(data: Fields)
    ensures Normalised(Saved(data))
  {
    EducationFromKept(data, 0);
    StringsFromKept(data, SkillField, 0);
    ExperienceFromKept(data, 0);
    StringsFromKept(data, CertificationField, 0);
    StripIsStripped(Get(data, Summary));
  }

  /** Two submissions that agree on every field numbered i. */
  predicate SameAt(data: Fields, data': Fields, i: nat)
  {
    forall k :: (Indexed(k, i) in data <==> Indexed(k, i) in data') && Get(data, Indexed(k, i)) == Get(data', Indexed(k, i))
  }

  lemma EducationAtSame(data: Fields, data': Fields, i: nat)
    requires SameAt(data, data', i)
    ensures EducationPresent(data, i) == EducationPresent(data', i)
    ensures EducationAt(data, i) == EducationAt(data', i)
  {
    assert Get(data, Indexed(DegreeField, i)) == Get(data', Indexed(DegreeField, i));
    assert Get(data, Indexed(InstitutionField, i)) == Get(data', Indexed(InstitutionField, i));
    assert Get(data, Indexed(EducationYearsField, i)) == Get(data', Indexed(EducationYearsField, i));
    assert Get(data, Indexed(ConcentrationField, i)) == Get(data', Indexed(ConcentrationField, i));
    assert Get(data, Indexed(EducationTextField, i)) == Get(data', Indexed(EducationTextField, i));
    assert Indexed(DegreeField, i) in data <==> Indexed(DegreeField, i) in data';
    assert Indexed(EducationTextField, i) in data <==> Indexed(EducationTextField, i) in data';
  }

  lemma ExperienceAtSame(data: Fields, data': Fields, i: nat)
    requires SameAt(data, data', i)
    ensures ExperiencePresent(data, i) == ExperiencePresent(data', i)
    ensures ExperienceAt(data, i) == ExperienceAt(data', i)
  {
    assert Get(data, Indexed(TitleField, i)) == Get(data', Indexed(TitleField, i));
    assert Get(data, Indexed(CompanyField, i)) == Get(data', Indexed(CompanyField, i));
    assert Get(data, Indexed(ExperienceYearsField, i)) == Get(data', Indexed(ExperienceYearsField, i));
    assert Get(data, Indexed(ExperienceTextField, i)) == Get(data', Indexed(ExperienceTextField, i));
    assert Indexed(TitleField, i) in data <==> Indexed(TitleField, i) in data';
    assert Indexed(ExperienceTextField, i) in data <==> Indexed(ExperienceTextField, i) in data';
  }

  /**
   * The counter stops at the first index with no field: two submissions that
   * agree on the fields numbered i up to the first gap j save the same list,
   * whatever fields they hold beyond j.
   */
  lemma {:induction false} StringsStopAtGap(data: Fields, data': Fields, kind: Kind, i: nat, j: nat)
    requires i <= j && Indexed(kind, j) !in data
    requires forall m :: i <= m <= j ==> SameAt(data, data', m)
    ensures StringsFrom(data', kind, i) == StringsFrom(data, kind, i)
    decreases j - i
  {
    assert SameAt(data, data', i);
    assert Indexed(kind, i) in data <==> Indexed(kind, i) in data';
    assert Get(data, Indexed(kind, i)) == Get(data', Indexed(kind, i));
    if i < j && Indexed(kind, i) in data {
      StringsStopAtGap(data, data', kind, i + 1, j);
    }
  }

  lemma {:induction false} EducationStopsAtGap(data: Fields, data': Fields, i: nat, j: nat)
    requires i <= j && !EducationPresent(data, j)
    requires forall m :: i <= m <= j ==> SameAt(data, data', m)
    ensures EducationFrom(data', i) == EducationFrom(data, i)
    decreases j - i
  {
    EducationAtSame(data, data', i);
    if i < j && EducationPresent(data, i) {
      EducationStopsAtGap(data, data', i + 1, j);
      var tail := EducationFrom(data, i + 1);
      assert EducationFrom(data, i) == EducationAt(data, i) + tail;
      assert EducationFrom(data', i) == EducationAt(data', i) + tail;
    } else {
      assert !EducationPresent(data', i);
    }
  }

  lemma {:induction false} ExperienceStopsAtGap(data: Fields, data': Fields, i: nat, j: nat)
    requires i <= j && !ExperiencePresent(data, j)
    requires forall m :: i <= m <= j ==> SameAt(data, data', m)
    ensures ExperienceFrom(data', i) == ExperienceFrom(data, i)
    decreases j - i
  {
    ExperienceAtSame(data, data', i);
    if i < j && ExperiencePresent(data, i) {
      ExperienceStopsAtGap(data, data', i + 1, j);
      var tail := ExperienceFrom(data, i + 1);
      assert ExperienceFrom(data, i) == ExperienceAt(data, i) + tail;
      assert ExperienceFrom(data', i) == ExperienceAt(data', i) + tail;
    } else {
      assert !ExperiencePresent(data', i);
    }
  }

  // ---------------------------------------------------------------------
  // What __init__ renders, and the round trip.

  /** The initial value __init__ gives field f, when it creates that field. */
  function Rendered(d: Details, f: FieldName): Option<string>
  {
    match f
    case Summary => Some(d.summary)
    case Indexed(kind, i) =>
      match kind
      case DegreeField =>
        if i < |d.education| && d.education[i].EducationEntry? then Some(d.education[i].degree) else None
      case InstitutionField =>
        if i < |d.education| && d.education[i].EducationEntry? then Some(d.education[i].institution) else None
      case EducationYearsField =>
        if i < |d.education| && d.education[i].EducationEntry? then Some(d.education[i].years) else None
      case ConcentrationField =>
        if i < |d.education| && d.education[i].EducationEntry? then Some(d.education[i].concentration) else None
      case EducationTextField =>
        if i < |d.education| && d.education[i].EducationNote? then Some(d.education[i].text) else None
      case SkillField => if i < |d.skills| then Some(d.skills[i]) else None
      case TitleField =>
        if i < |d.experience| && d.experience[i].ExperienceEntry? then Some(d.experience[i].title) else None
      case CompanyField =>
        if i < |d.experience| && d.experience[i].ExperienceEntry? then Some(d.experience[i].company) else None
      case ExperienceYearsField =>
        if i < |d.experience| && d.experience[i].ExperienceEntry? then Some(d.experience[i].years) else None
      case ExperienceTextField =>
        if i < |d.experience| && d.experience[i].ExperienceNote? then Some(d.experience[i].text) else None
      case CertificationField => if i < |d.certifications| then Some(d.certifications[i]) else None
  }

  const AllKinds: set<Kind> :=
    {DegreeField, InstitutionField, EducationYearsField, ConcentrationField, EducationTextField, SkillField,
     TitleField, CompanyField, ExperienceYearsField, ExperienceTextField, CertificationField}

  function Width(d: Details): nat
  {
    |d.education| + |d.skills| + |d.experience| + |d.certifications|
  }

  /** The fields __init__ creates, submitted with their initial values. */
  function Render(d: Details): (data: Fields)
    ensures forall f :: f in data <==> Rendered(d, f).Some?
    ensures forall f :: f in data ==> data[f] == Rendered(d, f).value
  {
    var names := {Summary} + set kind, i | kind in AllKinds && 0 <= i < Width(d) :: Indexed(kind, i);
    assert forall f :: Rendered(d, f).Some? ==> f in names by {
      forall f | Rendered(d, f).Some?
        ensures f in names
      {
        if f.Indexed? {
          assert f.kind in AllKinds;
          assert f.index < Width(d);
        }
      }
    }
    map f | f in names && Rendered(d, f).Some? :: Rendered(d, f).value
  }

  /** The form's fields: none when the candidate has no parsed details. */
  function FormFields(instance: Option<Details>): Fields
  {
    if instance.Some? then Render(instance.value) else map[]
  }

  lemma EducationAtRendered(d: Details, i: nat)
    requires i < |d.education| && KeptEducation(d.education[i])
    ensures EducationPresent(Render(d), i) && EducationAt(Render(d), i) == [d.education[i]]
  {
    var data := Render(d);
    match d.education[i]
    case EducationEntry(a, b, c, e) =>
      assert Get(data, Indexed(DegreeField, i)) == a && Get(data, Indexed(InstitutionField, i)) == b;
      assert Get(data, Indexed(EducationYearsField, i)) == c && Get(data, Indexed(ConcentrationField, i)) == e;
      StrippedIsFixed(a);
      StrippedIsFixed(b);
      StrippedIsFixed(c);
      StrippedIsFixed(e);
    case EducationNote(t) =>
      assert Rendered(d, Indexed(DegreeField, i)).None?;
      assert Get(data, Indexed(EducationTextField, i)) == t;
      StrippedIsFixed(t);
  }

  lemma {:induction false} EducationRoundTrip(d: Details, i: nat)
    requires forall k :: 0 <= k < |d.education| ==> KeptEducation(d.education[k])
    requires i <= |d.education|
    ensures EducationFrom(Render(d), i) == d.education[i..]
    decreases |d.education| - i
  {
    var data := Render(d);
    if i == |d.education| {
      assert Rendered(d, Indexed(DegreeField, i)).None? && Rendered(d, Indexed(EducationTextField, i)).None?;
      assert !EducationPresent(data, i);
    } else {
      EducationAtRendered(d, i);
      EducationRoundTrip(d, i + 1);
      DropCons(d.education, i);
      assert EducationFrom(data, i) == EducationAt(data, i) + EducationFrom(data, i + 1);
    }
  }

  lemma ExperienceAtRendered(d: Details, i: nat)
    requires i < |d.experience| && KeptExperience(d.experience[i])
    ensures ExperiencePresent(Render(d), i) && ExperienceAt(Render(d), i) == [d.experience[i]]
  {
    var data := Render(d);
    match d.experience[i]
    case ExperienceEntry(a, b, c) =>
      assert Get(data, Indexed(TitleField, i)) == a && Get(data, Indexed(CompanyField, i)) == b;
      assert Get(data, Indexed(ExperienceYearsField, i)) == c;
      StrippedIsFixed(a);
      StrippedIsFixed(b);
      StrippedIsFixed(c);
    case ExperienceNote(t) =>
      assert Rendered(d, Indexed(TitleField, i)).None?;
      assert Get(data, Indexed(ExperienceTextField, i)) == t;
      StrippedIsFixed(t);
  }

  lemma {:induction false} ExperienceRoundTrip(d: Details, i: nat)
    requires forall k :: 0 <= k < |d.experience| ==> KeptExperience(d.experience[k])
    requires i <= |d.experience|
    ensures ExperienceFrom(Render(d), i) == d.experience[i..]
    decreases |d.experience| - i
  {
    var data := Render(d);
    if i == |d.experience| {
      assert Rendered(d, Indexed(TitleField, i)).None? && Rendered(d, Indexed(ExperienceTextField, i)).None?;
      assert !ExperiencePresent(data, i);
    } else {
      ExperienceAtRendered(d, i);
      ExperienceRoundTrip(d, i + 1);
      DropCons(d.experience, i);
      assert ExperienceFrom(data, i) == ExperienceAt(data, i) + ExperienceFrom(data, i + 1);
    }
  }

  /** The list of strings __init__ numbers under kind. */
  function StringsOf(d: Details, kind: Kind): seq<string>
    requires kind == SkillField || kind == CertificationField
  {
    if kind == SkillField then d.skills else d.certifications
  }

  lemma {:induction false} StringsRoundTrip(d: Details, kind: Kind, i: nat)
    requires kind == SkillField || kind == CertificationField
    requires forall k :: 0 <= k < |StringsOf(d, kind)| ==> Kept(StringsOf(d, kind)[k])
    requires i <= |StringsOf(d, kind)|
    ensures StringsFrom(Render(d), kind, i) == StringsOf(d, kind)[i..]
    decreases |StringsOf(d, kind)| - i
  {
    var xs := StringsOf(d, kind);
    if i == |xs| {
      assert Rendered(d, Indexed(kind, i)).None?;
    } else {
      StringsRoundTrip(d, kind, i + 1);
      assert xs[i..] == [xs[i]] + xs[i + 1..];
      assert Get(Render(d), Indexed(kind, i)) == xs[i];
      StrippedIsFixed(xs[i]);
    }
  }

  /** Submitting the rendered form unchanged saves exactly the details it was rendered from. */
  lemma RenderSaveRoundTrip(d: Details)
    requires Normalised(d)
    ensures Saved(Render(d)) == d
  {
    EducationRoundTrip(d, 0);
    StringsRoundTrip(d, SkillField, 0);
    ExperienceRoundTrip(d, 0);
    StringsRoundTrip(d, CertificationField, 0);
    assert Get(Render(d), Summary) == d.summary;
    StrippedIsFixed(d.summary);
  }

  /** Editing and saving twice without changes leaves the record as the first save left it. */
  lemma SaveRenderIdempotent(data: Fields)
    ensures Saved(Render(Saved(data))) == Saved(data)
  {
    SavedIsNormalised(data);
    RenderSaveRoundTrip(Saved(data));
  }

  /** A candidate without parsed details gets an empty form, which saves empty lists and summary. */
  lemma SaveWithoutDetails()
    ensures Saved(FormFields(None)) == Details([], [], [], [], "")
  {
    assert Strip("") == "";
  }
}
