# Recruitment pipeline and résumé rules, modelled in Dafny

This project models the rule-bearing core of the recruitment app of a Django
HR system. It covers two groups of code.

- The views (`recruitment/views/views.py`):
  - résumé intake: span extraction, ranking, date-of-birth normalisation and
    the contact-detail scan;
  - skill-based résumé ranking;
  - pipeline mutations: drag-and-drop stage change, candidate and stage
    re-sequencing, single and bulk stage moves, new-stage sequence numbers,
    stage defaulting and repair on create/update;
  - small helpers: profile neighbour links, average rating, pipeline
    grouping, skill-zone add and archive.
- The forms (`recruitment/forms.py`):
  - candidate creation `save`/`clean`;
  - the application, recruitment, question, interview and skill-zone
    validators;
  - the question options `save`;
  - the stage drop-down sequence;
  - the parsed-résumé edit form's render/save round trip;
  - the registration form's empty choices and `save`.

Records are datatypes: candidate, stage, history entry, span, date and
résumé details. Objects whose fields the code updates in place are classes:

- `Pipeline.Store`, with the candidate and stage tables;
- `ViewHelpers.SkillZones`;
- `Forms.CandidateCreationForm`;
- `Forms.RegistrationChoices`;
- `ParsedResume.DetailsTable`.

The loops of the source are `while` loops proved against specification
functions. What the code gets from outside is a parameter:

- the parsed PDF page/block/line/span structure and the page texts;
- the regular-expression searches;
- the country and state lists;
- the cached candidate and stage sets of the session;
- the answer of `is_vacancy_filled()`;
- "today" and "now";
- the permission booleans.

Modules and files:

| file | module | models |
|---|---|---|
| common.dfy | Common | ASCII versions of the string methods used (`lower`, `capitalize`, `strip`, `split`, `replace`, `join`) |
| sorting.dfy | Sorting | `sorted(..., reverse=True)` as a stable insertion sort, with its permutation, order and stability proofs |
| spans.dfy | Spans | `extract_text_with_font_info`, `rank_text` |
| dates.dfy | Dates | `datetime.strptime` for the six formats, `dob_matching` |
| contact.dfy | Contact | `extract_info` |
| skills.dfy | SkillRanking | `extract_words_from_pdf`, `matching_resumes` |
| pipeline.dfy | Pipeline | stage moves and sequence updates, new stage sequence, stage defaulting |
| helpers.dfy | ViewHelpers | neighbours, rating, `pipeline_grouper`, `to_skill_zone`, `skill_zone_archive` |
| forms.dfy | Forms | the form validators and saves |
| parsed_resume.dfy | ParsedResume | `ParsedResumeDetailsForm.__init__`/`save` |

## Model

| member | source | states |
|---|---|---|
| Common.UpperCount | recruitment/views/views.py:2821-2823 | the number of upper-case characters is at most the length, and 0 when none is upper case |
| Common.Lower | recruitment/views/views.py:3135 | lower-casing keeps the length and lower-cases each character |
| Common.Capitalize | recruitment/views/views.py:2945 | the first character is upper-cased, the rest lower-cased, the length kept |
| Common.StripIsStripped | recruitment/views/views.py:2942 | `strip()` leaves no whitespace at either end |
| Common.StripIdempotent | recruitment/forms.py:1510 | stripping twice is stripping once |
| Common.ReplaceAll | recruitment/views/views.py:2942 | `replace` changes nothing when the pattern does not occur |
| Common.Split | recruitment/views/views.py:2944 | `split(" ")` gives at least one part, no part holds the separator, and joining the parts with it gives the text back |
| Spans.Survivors | recruitment/views/views.py:2814-2828 | the spans a block contributes are a prefix of its spans, all non-empty, cut exactly at the first empty span |
| Spans.EmptySpanStopsBlock | recruitment/views/views.py:2814-2828 | an empty span at line l, position k, makes the block contribute exactly the spans before it, earlier lines included |
| Spans.ReadBlock | recruitment/views/views.py:2813-2828 | the loops over one block's lines and spans produce the block's info, or stop at the first empty span |
| Spans.ReadPage | recruitment/views/views.py:2812-2828 | the loop over a page's blocks appends each block's info in order |
| Spans.ExtractTextWithFontInfo | recruitment/views/views.py:2799-2830 | the nested page and block loops produce the document's info in page, block, line and span order |
| Spans.PageInfoWellFormed | recruitment/views/views.py:2817-2826 | every emitted entry of a page has non-empty text and capitalization = upper-case count / length |
| Spans.DocumentInfoWellFormed | recruitment/views/views.py:2810-2830 | every emitted entry of a document has non-empty text and the exact capitalization ratio |
| Spans.BlockWithoutEmptySpan | recruitment/views/views.py:2815-2826 | a block without an empty span contributes all its spans, in line then span order |
| Spans.EmptySpanCutsBlock | recruitment/views/views.py:2827-2828 | an empty span drops the rest of its block, but the next block still contributes |
| Spans.RatioGeTransitive | recruitment/views/views.py:2844 | comparing capitalization ratios by cross-multiplication is transitive |
| Spans.KeyGeTotalPreorder | recruitment/views/views.py:2844 | the key (font size, capitalization) compared lexicographically is a total preorder |
| Spans.RankText | recruitment/views/views.py:2833-2846 | the ranking is a permutation of its input, non-increasing by (font size, capitalization), and entries with equal keys keep their input order |
| Sorting.Insert | recruitment/views/views.py:2843-2845 | insertion adds exactly the one element (as a multiset) |
| Sorting.SortDesc | recruitment/views/views.py:2843-2845 | the sort is a permutation of its input |
| Sorting.InsertSorted | recruitment/views/views.py:2843-2845 | inserting into a non-increasing sequence keeps it non-increasing |
| Sorting.SortDescSorted | recruitment/views/views.py:2843-2845 | the sort result is non-increasing in the key |
| Sorting.InsertPeers | recruitment/views/views.py:2843-2845 | insertion puts the element before its key peers, so each peer class keeps its order |
| Sorting.SortDescStable | recruitment/views/views.py:2843-2845 | for every key class, its elements appear in the result exactly in their input order |
| Sorting.SortDescStableAll | recruitment/views/views.py:3179-3184 | stability holds for every key class at once |
| Dates.DaysInMonth | recruitment/views/views.py:2870 | a month has 28 to 31 days |
| Dates.Alternatives | recruitment/views/views.py:2870 | every length a directive's pattern can match is positive and stays inside the string |
| Dates.MatchFrom | recruitment/views/views.py:2870 | a successful match yields one text per remaining directive and ends inside the string |
| Dates.Strptime | recruitment/views/views.py:2869-2873 | a successful parse is a valid calendar date |
| Dates.Pad2 | recruitment/views/views.py:2871 | two-digit zero padding has two digits and denotes its number |
| Dates.Pad4 | recruitment/views/views.py:2871 | four-digit zero padding has four digits and denotes its number |
| Dates.Render | recruitment/views/views.py:2871 | the `%Y-%m-%d` rendering is ten characters: zero-padded digits everywhere except the dashes at 4 and 7, whose three digit fields read back as the year, month and day |
| Dates.FirstParsing | recruitment/views/views.py:2868-2873 | the chosen format is the first of the list that parses; no format is chosen only when none parses |
| Dates.DobMatching | recruitment/views/views.py:2849-2875 | the input unchanged when no format parses; otherwise a ten-character, zero-padded `YYYY-MM-DD` text (digits everywhere but the two dashes) that parses under `%Y-%m-%d` to the date the first parsing format read |
| Dates.RenderParses | recruitment/views/views.py:2860-2871 | a rendered date parses back under `%Y-%m-%d` to the same date |
| Dates.DobMatchingOfRendered | recruitment/views/views.py:2849-2875 | a date already in `YYYY-MM-DD` form comes back unchanged |
| Dates.DobMatchingIdempotent | recruitment/views/views.py:2849-2875 | normalising twice is normalising once |
| Dates.ExampleFailsFirstThree | recruitment/views/views.py:2860-2862 | "12/05/2020" fails `%Y-%m-%d`, `%Y/%m/%d` and `%d-%m-%Y` |
| Dates.ExampleParsesDayFirst | recruitment/views/views.py:2863 | "12/05/2020" parses under `%d/%m/%Y` as 12 May 2020 |
| Dates.ExampleFirstParsing | recruitment/views/views.py:2868-2873 | the fourth format is the first to parse "12/05/2020" |
| Dates.DobMatchingExample | recruitment/views/views.py:2849-2875 | "12/05/2020" becomes "2020-05-12" |
| Contact.MaxFont | recruitment/views/views.py:2909 | the maximum font size is at least every span's size and is some span's size |
| Contact.TextsOfSizePrefix | recruitment/views/views.py:2906-2910 | in a list ordered by font size, the texts of the maximum size are exactly those of a prefix |
| Contact.FullNameOfRanked | recruitment/views/views.py:2906-2913 | the full name is "" with no spans, otherwise the " "-join, in ranked order, of exactly the spans of the largest font size |
| Contact.FirstFilledIsFirst | recruitment/views/views.py:2918-2939 | a set-once field is "" exactly when no non-empty span offers a value, otherwise it is the value of the first span that offers one |
| Contact.FirstFilledStable | recruitment/views/views.py:2921-2943 | once a set-once field is filled, later spans do not change it |
| Contact.LastListedWordIsLast | recruitment/views/views.py:2944-2950 | country/state is the original-case word whose capitalised form is listed and after which no listed word follows; none when no word is listed |
| Contact.LastListedWordAppend | recruitment/views/views.py:2944-2950 | a listed word in a later span overrides any earlier one |
| Contact.LastListedOverWords | recruitment/views/views.py:2944-2950 | over all spans, country/state is the last listed word of all their space-split words |
| Contact.ProgressStep | recruitment/views/views.py:2915-2950 | the record after one more span is one step of the scan applied to the record before |
| Contact.ScanWords | recruitment/views/views.py:2944-2950 | the word loop leaves the last listed word, or the old value when there is none |
| Contact.FillFromSearch | recruitment/views/views.py:2921-2939 | a set-once regex field is filled from this span only while it is still "" |
| Contact.FillDob | recruitment/views/views.py:2926-2929 | the date of birth is filled once, with the normalised match |
| Contact.FillAddress | recruitment/views/views.py:2941-2942 | the address is filled once, from a span mentioning "address" in any case, with "Address:" removed and the result stripped |
| Contact.OverwriteFromWords | recruitment/views/views.py:2944-2950 | country/state become the last listed word of this span if it has one |
| Contact.ReadSpan | recruitment/views/views.py:2916-2950 | one loop iteration is one step of the scan, empty spans skipped |
| Contact.ScanRanked | recruitment/views/views.py:2915-2950 | the loop over the ranked spans yields the scan's record |
| Contact.ExtractInfo | recruitment/views/views.py:2878-2952 | the result is the record of the scan over the ranked spans of the document, with the full name of the largest font |
| SkillRanking.RunLength | recruitment/views/views.py:3135 | a run of \w characters is maximal |
| SkillRanking.Tokens | recruitment/views/views.py:3135 | every token is a non-empty run of \w characters |
| SkillRanking.TokensSeparated | recruitment/views/views.py:3135 | a non-word character splits the tokens of its two sides |
| SkillRanking.WordIsOneToken | recruitment/views/views.py:3135 | a word alone is one token |
| SkillRanking.PagesWords | recruitment/views/views.py:3131-3137 | every extracted word is a \w run |
| SkillRanking.ExtractWordsFromPdf | recruitment/views/views.py:3120-3141 | the page loop yields the words of all pages, in page order |
| SkillRanking.MatchCount | recruitment/views/views.py:3164 | the count is at most the number of skills |
| SkillRanking.MatchCountCounts | recruitment/views/views.py:3164 | the count is the number of skill titles whose lower-case form is one of the words |
| SkillRanking.OnlyWordTitlesCount | recruitment/views/views.py:3164 | titles that are not \w runs never count, and no words means a count of 0 |
| SkillRanking.ImagePdfScoresZero | recruitment/views/views.py:3163-3168 | `image_pdf` is set exactly when there are no words, and then the count is 0 |
| SkillRanking.RanksOf | recruitment/views/views.py:3161-3170 | one entry per résumé, in order, with its count and flag |
| SkillRanking.Group | recruitment/views/views.py:3172-3177 | a group holds exactly the résumés on its side of the candidate-id test |
| SkillRanking.GroupsPartition | recruitment/views/views.py:3172-3177 | the two groups together are a permutation of all entries |
| SkillRanking.CountGeTotalPreorder | recruitment/views/views.py:3180 | comparing by count is a total preorder |
| SkillRanking.SortedGroup | recruitment/views/views.py:3179-3184 | each sorted group stays on its side, is non-increasing by count, and is stable |
| SkillRanking.ArrangeRanks | recruitment/views/views.py:3172-3186 | the output is a permutation; all non-candidate résumés come before all candidate résumés; each part is non-increasing by count and stable |
| SkillRanking.ScoreResumes | recruitment/views/views.py:3161-3170 | the scoring loop yields one entry per résumé |
| SkillRanking.MatchingResumes | recruitment/views/views.py:3147-3186 | the ranking equals the partition-then-sort arrangement of the scored résumés |
| Pipeline.AsWrittenGate | recruitment/views/views.py:865-869 | as written: allowed exactly for a stage manager or a superuser; otherwise the manager call raises, and there is never a plain refusal |
| Pipeline.IntendedGate | recruitment/views/views.py:865-869 | allowed exactly for a stage manager, a superuser or a recruitment manager; refused otherwise |
| Pipeline.AsWrittenGateRaisesForRecruitmentManager | recruitment/views/views.py:868 | a recruitment manager who is neither stage manager nor superuser gets a TypeError as written, and would be allowed as intended |
| Pipeline.GatesAgreeWhenShortCircuited | recruitment/views/views.py:865-869 | when the first two operands allow, both gates allow |
| Pipeline.ScheduleDateFor | recruitment/views/views.py:854-859 | the schedule date is that of the first history entry for the stage, or None when there is none |
| Pipeline.MoveToStage | recruitment/views/views.py:851-896 | same stage gives noChange and changes nothing; allowed gives success with the stage, hired, canceled, start_onboard and schedule date set, and recruitment, job position, sequence, history and source kept; refused (danger) or raised changes nothing |
| Pipeline.MoveToStageTwice | recruitment/views/views.py:851-852 | repeating a successful move reports noChange |
| Pipeline.LastIndex | recruitment/views/views.py:546-550 | the last index of an id in the order list |
| Pipeline.ReorderedSpec | recruitment/views/views.py:546-550 | after the loop, each listed cached candidate has its last index as sequence and the target stage; the others are untouched; no key is added or removed |
| Pipeline.ReorderedIdempotent | recruitment/views/views.py:572-576 | rerunning the loop with the same list and stage gives the same table |
| Pipeline.StageSequenceReply | recruitment/views/views.py:551-555 | the vacancy message appears exactly when the stage is "hired" and the vacancy is filled; a missing stage raises |
| Pipeline.MovedAllSpec | recruitment/views/views.py:640-655 | the bulk move sets the stage of each listed candidate whose recruitment has that stage, and changes nothing else |
| Pipeline.MovedAllOutcome | recruitment/views/views.py:640-655 | the outcome for an id does not depend on earlier moves |
| Pipeline.SequencesApplied | recruitment/views/views.py:2039-2042 | applying the id-to-sequence pairs keeps the table's keys |
| Pipeline.FirstMissing | recruitment/views/views.py:2040 | the number of pairs applied before the first missing id raises |
| Pipeline.SequencesAppliedSpec | recruitment/views/views.py:2039-2057 | each listed record gets its sequence, and unlisted records are untouched |
| Pipeline.Store.CandidateStageUpdate | recruitment/views/views.py:840-896 | the store's candidate becomes the result of the move under the as-written gate, so a user who is neither stage manager nor superuser gets the TypeError and nothing changes; a missing candidate or stage raises and changes nothing |
| Pipeline.Store.UpdateCandidateSequence | recruitment/views/views.py:560-577 | the candidate table becomes the reordered table; a stage outside the cached set becomes None |
| Pipeline.Store.UpdateCandidateStageAndSequence | recruitment/views/views.py:534-555 | the table is reordered, and the reply is the vacancy reply for the cached stage |
| Pipeline.Store.ChangeCandidateStage | recruitment/views/views.py:630-674 | the table becomes the bulk-moved table; one outcome per id; the vacancy message appears only after a move to a hired stage whose vacancy is filled |
| Pipeline.Store.MoveCandidate | recruitment/views/views.py:640-655 | one iteration of the bulk loop |
| Pipeline.Store.ChangeCandidateStageGet | recruitment/views/views.py:675-685 | the single GET move is the bulk move of that one id; it completes exactly when the candidate exists |
| Pipeline.Store.CandidateSequenceUpdate | recruitment/views/views.py:2034-2044 | the pairs before the first missing candidate are applied, and the call completes only when none is missing |
| Pipeline.Store.StageSequenceUpdate | recruitment/views/views.py:2049-2058 | the same for stages, leaving candidates unchanged |
| Pipeline.NewStageSequence | recruitment/views/views.py:1146-1156 | no sequence exactly when the recruitment has no active stage; 1 when null sequences sort last and some sequence is null; otherwise the largest non-null sequence + 1 (above every non-null sequence), or 1 when all are null |
| Pipeline.NewStageSequenceOfLast | recruitment/views/views.py:1147-1155 | for the stages in the database's order_by("sequence") order, under either placement of nulls, the result is the last stage's sequence + 1, or 1 when it is null |
| Pipeline.MaxSequence | recruitment/views/views.py:1147-1151 | the largest non-null sequence, or none when all are null |
| Pipeline.DropDownSequence | recruitment/forms.py:650-656 | the drop-down's sequence is the last stage's sequence + 1, else 1 |
| Pipeline.FirstInitialStage | recruitment/views/views.py:1310-1313 | the chosen stage is the first "initial" stage of the recruitment in table order; none is chosen only when there is none |
| Pipeline.FirstInitialStageIsFirst | recruitment/views/views.py:1311-1313 | any initial stage of the recruitment with none before it in table order is the one chosen |
| Pipeline.CreateCandidate | recruitment/views/views.py:1306-1322 | a candidate is saved exactly when a job position is posted, with start_onboard false, source "software", a missing stage defaulted to the first initial stage of its recruitment, hired exactly when already hired or the request comes from the onboarding view (`onboarding=True`), and every other field kept |
| Pipeline.CreatedStageIsInitial | recruitment/views/views.py:1310-1313 | a candidate created without a stage gets an initial stage of its own recruitment, or none when the recruitment has none |
| Pipeline.RepairStage | recruitment/views/views.py:1633-1651 | after the update, the stage (if any) belongs to the candidate's recruitment; a stage of the right recruitment is kept; a missing or foreign stage becomes the recruitment's first initial stage; hired exactly when already hired or from the onboarding view; no other field changes |
| Pipeline.RepairStageIdempotent | recruitment/views/views.py:1633-1651 | repairing twice is repairing once |
| ViewHelpers.FirstIndex | recruitment/views/views.py:1585-1586 | the first position of the id, or none exactly when the id is absent |
| ViewHelpers.Neighbours | recruitment/views/views.py:1582-1596 | next and previous are the neighbours of the first occurrence, None at either end or when the id is absent |
| ViewHelpers.RoundHalfEven | recruitment/views/views.py:1570 | Python's `round` of s/n: within half of s/n, ties to the even integer |
| ViewHelpers.SumBounds | recruitment/views/views.py:1570 | the sum of values within bounds lies within count times the bounds |
| ViewHelpers.AverageRatingBounds | recruitment/views/views.py:1566-1570 | the average rating lies within the bounds of the ratings |
| ViewHelpers.GroupFor | recruitment/views/views.py:209-217 | a stage's group is the first grouper for it, or a bare `{"grouper": stage}` |
| ViewHelpers.OrderGroupers | recruitment/views/views.py:205-217 | exactly one group per stage, in stage order |
| ViewHelpers.WithZonesSpec | recruitment/views/views.py:2557-2565 | existing rows are kept, the candidate ends up in every chosen zone, and new rows are active with the reason |
| ViewHelpers.WithZonesUnchanged | recruitment/views/views.py:2557-2560 | nothing is added when the candidate is already in every chosen zone |
| ViewHelpers.WithZonesIdempotent | recruitment/views/views.py:2557-2565 | adding the same zones twice is adding them once |
| ViewHelpers.SetZoneActive | recruitment/views/views.py:2263-2277 | every member of the zone gets the flag; other rows are untouched |
| ViewHelpers.SkillZones.ToSkillZone | recruitment/views/views.py:2556-2565 | the loop adds the missing associations and nothing else |
| ViewHelpers.SkillZones.SkillZoneArchive | recruitment/views/views.py:2258-2281 | a found zone's flag is toggled and every member's is_active is set to the new value; a missing zone changes nothing |
| Forms.CandidateCreationForm.Save | recruitment/forms.py:410-426 | hired and start_onboard both become true exactly when the stage is "hired" and the candidate is not canceled; the save succeeds exactly when no job position is posted or it exists, and then the posted one is set; nothing else changes |
| Forms.CandidateCreationClean | recruitment/forms.py:438-459 | a missing recruitment raises; otherwise a Required resume error exactly when no resume is given and the recruitment does not make it optional; for a named instance, a job-position error exactly when the instance's position is missing or not open ("choose a valid") or the posted one is empty (Required), and that field's own error is dropped |
| Forms.ApplicationClean | recruitment/forms.py:518-550 | rejected exactly for a name over 100 characters or a missing required resume; otherwise the avatar URL becomes the profile |
| Forms.AvatarUrlNamesApplicant | recruitment/forms.py:547 | the avatar URL is the prefix followed by the applicant's name |
| Forms.ResumeRuleAgrees | recruitment/forms.py:443-444 | both forms apply the same resume rule |
| Forms.RecruitmentClean | recruitment/forms.py:293-304 | a publishing error exactly for a published recruitment without open positions; the managers error is dropped when managers are posted |
| Forms.QuestionClean | recruitment/forms.py:782-796 | rejects an empty recruitment set, then empty options for option types |
| Forms.OptionValuesMembers | recruitment/forms.py:802-804 | a value is kept exactly when it is truthy and belongs to an `options*` field |
| Forms.OptionValuesAppend | recruitment/forms.py:802-804 | the kept values of two field lists are concatenated in order |
| Forms.SaveOptions | recruitment/forms.py:798-812 | for option types, the truthy `options*` values joined with ", " in field order; otherwise "" |
| Forms.ValidQuestionKeepsOptions | recruitment/forms.py:792-806 | a valid option question saves non-empty options |
| Forms.Conflicts | recruitment/forms.py:1105-1111 | the listed zones are exactly the selected zones that already hold the candidate |
| Forms.CleanSkillZones | recruitment/forms.py:1104-1116 | the loop yields the verdict over the zones the candidate is already in |
| Forms.ZoneVerdictRejectsDuplicates | recruitment/forms.py:1112-1116 | the verdict raises exactly when some selected zone holds the candidate |
| Forms.ToSkillZoneCleanAsWritten | recruitment/forms.py:1078-1116 | as written: a failed (empty or unknown) zone selection is missing from cleaned_data and the loop raises TypeError; otherwise the candidate is None, so the duplicate error comes only for rows without a candidate |
| Forms.ToSkillZoneClean | recruitment/forms.py:1100-1116 | raises exactly when a selected zone already holds the candidate, listing those zones |
| Forms.AsWrittenMissesDuplicate | recruitment/forms.py:1092 | a zone that already holds candidate 5 is accepted as written but rejected as intended |
| Forms.OnLeaveMembers | recruitment/forms.py:1219-1232 | a name is reported exactly when that manager has approved leave covering the date |
| Forms.InterviewClean | recruitment/forms.py:1198-1239 | past-date and past-time errors only for new interviews; existing ones never get them; on-leave managers reported when the leave app is installed |
| Forms.WithEmptyChoice | recruitment/forms.py:2024-2027 | the empty choice is put first unless already present |
| Forms.EmptyChoicesAddedSpec | recruitment/forms.py:2011-2027 | each listed field present gets its empty choice; other fields are untouched |
| Forms.ChoiceLabelsDistinct | recruitment/forms.py:2011-2019 | the seven listed field names are distinct |
| Forms.EmptyChoicesIdempotent | recruitment/forms.py:2021-2027 | running `__init__`'s choice loop twice changes nothing more |
| Forms.RegistrationChoices.AddEmptyChoices | recruitment/forms.py:2021-2027 | the loop rewrites the choices as specified |
| Forms.RegistrationSave | recruitment/forms.py:2029-2064 | source "application"; with a recruitment, the stage is its first initial stage in table order (none when it has none); without one, no stage |
| Forms.RegistrationStageAsCreated | recruitment/forms.py:2056-2059 | a registered applicant gets the same stage as a stage-less candidate of that recruitment created in the candidate view |
| ParsedResume.ReadEducation | recruitment/forms.py:1509-1525 | one education index gives its stripped entry or note, dropped when all empty |
| ParsedResume.SaveEducation | recruitment/forms.py:1505-1528 | the loop collects the education items from index 0 up to the first missing index |
| ParsedResume.ReadExperience | recruitment/forms.py:1543-1557 | one experience index gives its stripped entry or note, dropped when all empty |
| ParsedResume.SaveExperience | recruitment/forms.py:1539-1560 | the loop collects the experience items up to the first missing index |
| ParsedResume.ReadString | recruitment/forms.py:1534-1536 | one skill or certification, stripped, dropped when empty |
| ParsedResume.SaveStrings | recruitment/forms.py:1530-1569 | the skill (certification) loop collects the stripped non-empty values up to the first missing index |
| ParsedResume.DetailsTable.Save | recruitment/forms.py:1489-1579 | the candidate's details row becomes the saved details; other rows are untouched |
| ParsedResume.EducationFromKept | recruitment/forms.py:1510-1525 | every saved education value is stripped and no entry is all empty |
| ParsedResume.ExperienceFromKept | recruitment/forms.py:1544-1557 | every saved experience value is stripped and no entry is all empty |
| ParsedResume.StringsFromKept | recruitment/forms.py:1533-1536 | every saved skill/certification is stripped and non-empty |
| ParsedResume.SavedIsNormalised | recruitment/forms.py:1505-1576 | everything save stores is stripped and non-empty |
| ParsedResume.StringsStopAtGap | recruitment/forms.py:1533 | fields past the first missing index never affect the saved list |
| ParsedResume.EducationStopsAtGap | recruitment/forms.py:1526-1527 | education fields past the first missing index never affect the result |
| ParsedResume.ExperienceStopsAtGap | recruitment/forms.py:1558-1559 | experience fields past the first missing index never affect the result |
| ParsedResume.Render | recruitment/forms.py:1332-1487 | `__init__` creates exactly the fields of the stored details, with their values as initial values |
| ParsedResume.EducationRoundTrip | recruitment/forms.py:1336-1396 | stored normalised education, rendered and saved, comes back from each index on |
| ParsedResume.ExperienceRoundTrip | recruitment/forms.py:1412-1461 | the same for experience |
| ParsedResume.StringsRoundTrip | recruitment/forms.py:1397-1476 | the same for skills and certifications |
| ParsedResume.RenderSaveRoundTrip | recruitment/forms.py:1332-1576 | normalised details, rendered and submitted unchanged, are saved back unchanged |
| ParsedResume.SaveRenderIdempotent | recruitment/forms.py:1332-1576 | saving, rendering and saving again gives the first save |
| ParsedResume.SaveWithoutDetails | recruitment/forms.py:1332 | a form without stored details saves empty lists and an empty summary |

## Left out

- Character classes (`isupper`, `lower`, `capitalize`, `strip`, `\w`, `\d`) are ASCII only. Python's Unicode tables are not modelled.
- Common.ReplaceAll: states only that the text is unchanged when the pattern does not occur, not where the replacements go.
- ViewHelpers.RoundHalfEven: `round(sum / len)` is taken on the exact quotient. The float division's rounding is not modelled.
- Spans.RankText: the key's float capitalization is an exact ratio compared by cross-multiplication, and font sizes are integers. It does not capture float rounding, which can make two distinct ratios compare equal.
- Contact.ExtractInfo: the phone, dob, e-mail and zip regular expressions are abstract `search` functions, so their patterns are not modelled.
- PDF reading (`fitz.open`, `get_text`) is not modelled. The extractor takes the parsed page/block/line/span structure, and the word extractor takes page texts.
- Dates.Render: `strftime("%Y")` is assumed to give four digits for every year. Python's output for years below 1000 depends on the platform's C library, and that is not modelled.
- The ORM is parameters:
  - the session cache's candidate and stage sets;
  - the `first()`/`last()` row order, as an order list;
  - whether NULL sequences sort last;
  - `is_vacancy_filled()` and the vacancy.
- JobPosition lookup failure in `CandidateCreationForm.save` is the `saved` result being false. The DoesNotExist exception is not modelled.
- `queryset.update` in the re-sequencing views bypasses `save()`, and no history entries are written. History appends on `save()` are model hooks, and those are not part of this model.
- Pipeline.CreateCandidate, Forms.RegistrationSave: the plain field copies (name, email, mobile, ...) are not modelled, only the fields with rules.
- Messages, `notify.send`, templates, pagination, the permission decorators and the persistence step (`commit`) are not modelled.
- `pipeline_grouper`'s filtering and pagination before the combining loop are not modelled (views.py:181-204).
- `to_skill_zone`'s permission check and its raise on a missing candidate are not modelled. Only the add loop is.
- A KeyError on a missing `cleaned_data` field (`employee_id`, `profile`) in the `clean` methods is not modelled.
- Forms.ToSkillZoneClean: takes a valid zone selection. The TypeError on a failed `skill_zone_ids` field (forms.py:1103-1105) is modelled only in the as-written member, because the intended handling of that case is not evident.
- ParsedResume.Render: education and experience items are modelled as dicts with their known keys, or as text. An extra key is not rendered, and a non-dict item is rendered through its `str()`, which the note form takes as text.
- The form fields' own CharField stripping coincides with the explicit `.strip()` of `save`, so it is modelled once.
- Forms.InterviewClean: the leave app's `requested_dates()` is a set of day numbers.
- `SkillZoneCandidateForm.save` is not modelled, because its `pk + 1` duplication depends on database key allocation.
- recruitment/methods.py (the LLM résumé parser and the manager queries) is not part of this model.
- Concurrency is not modelled: the views run without locking, and the model is sequential.

## Findings

| source | as written | input that shows it | evidently intended | confidence | as-written member | corrected member |
|---|---|---|---|---|---|---|
| recruitment/views/views.py:868 | `is_recruitmentmanager(rec_id=...)` is called without the request argument, so it raises TypeError whenever the first two operands are false | a recruitment manager who is neither stage manager on that recruitment nor superuser drops a candidate onto another stage | the recruitment manager is allowed to move the candidate, and anyone else gets the "danger" reply | high, not executed | Pipeline.AsWrittenGateRaisesForRecruitmentManager | Pipeline.IntendedGate |
| recruitment/forms.py:1089-1116 | `candidate_id` is excluded from the form, so `cleaned_data.get("candidate_id")` is None and the duplicate check looks for rows without a candidate | candidate 5 already in zone 1, selecting zone 1 again | the form raises "already exists in" zone 1 | high, not executed | Forms.AsWrittenMissesDuplicate | Forms.ToSkillZoneClean |

The store's `CandidateStageUpdate` follows the code as written, so it raises where views.py:868 raises. `IntendedGate` is the corrected gate, proved on its own.
