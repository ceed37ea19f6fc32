# Resume autofill: the DTO mapper and the parser's glue, in Dafny

This project models the deterministic core of a resume-autofill service.

- **`DTOMapper`** (`dto_mapper.py`) turns the JSON tree extracted from a resume into
  the DTO of a job application. It starts from a base DTO and maps five optional
  sections into it: personal data and address, education, work experience,
  research experience, and additional information. Along the way it:
  - looks ids up in a master-data catalog;
  - classifies qualification levels and normalises course names;
  - reads dates in four `strptime` formats and computes experience durations from them;
  - selects the current job;
  - shortens long award texts.
- **`ResumeParser`** (`resume_parser.py`) surrounds a language-model call. Its
  deterministic parts are modelled:
  - the choice of text extractor by file extension;
  - the empty-text guard;
  - the removal of a Markdown code fence from the model's answer;
  - the recursive sanitiser that turns every number, boolean and null into a string.

## How the model is written

JSON values are the datatype `PyJson.Json`. A dict is a list of key/value pairs in
insertion order. Python's truthiness, `dict.get`, `in` and `[]` are spelled out on
this datatype. Any exception the source would raise inside `map_to_dto` becomes
`Err(MappingFailed)`.

Each output dict is a datatype with one field per key. The sections the base DTO
holds as `{}` have type `Section<T> = EmptyDict | Filled(T)`.

Three things the source reads from outside its code are parameters:

- the master-data file, as a `Catalog` (a map from category to values in file order);
- `datetime.now()`, as a `today: Date`;
- the text extractors, the model call and `json.loads` of the parser.

Several loops of the source are methods with the loop and its invariants. Each
such method is proved equal to a specification function, and the lemmas are stated
about those functions:

- `FindHighestQualification`: the `levels` loop of `_find_highest_qualification`.
- `MapEducationData`: the entry loop of `_map_education_data`.
- `FindCurrentExperience`: the two `break` loops that choose the current job.
- `CalculatePreviousExperience`: the accumulation loop of `_calculate_previous_experience`.
- `TryFormats`: the format loop of `_parse_date_array`.
- `NormalizeAwards`: the award loop of `normalize_awards`.
- `MapToDto`: the section-by-section body of `map_to_dto`.

The other loops are first-match searches. Each is a recursive function that
returns the first hit, with lemmas saying that no earlier element matches:

- `MasterData.FirstMatchFrom`: the catalog search of `_find_master_id`.
- `Education.FirstKeyIn`: the key search of `_map_qualification_level`.
- `Dates.ParseDate`: the format loops of `_format_date`, `_calculate_experience_from_dates`, `_calculate_years_from_dates` and `_calculate_months_from_dates`.

Modules:

- `results`, `py_str`, `py_json`: the Python semantics the mapper relies on.
- `dates`: date parsing, durations, `_format_date`, `_parse_date_array`.
- `master_data`: `_find_master_id`.
- `education`: level ids, the highest level, course names, completion years and status.
- `education_section`: `_map_education_data`.
- `work_experience`: `_map_work_experience` and the experience totals.
- `personal`: `_map_personal_data` and `_map_address_data`.
- `research`: `_map_research_experience`.
- `additional_info`: `_map_additional_info`.
- `dto_mapper`: `map_to_dto` and `_create_base_dto`.
- `resume_parser`: the parser's glue.

## Model

| member | source | states |
|---|---|---|
| DtoMapper.Lookup | dto_mapper.py:20-38 | on a dict, `key in d` then `d[key]` is the dict's value under the key, or nothing when absent; on anything else a successful lookup finds nothing |
| DtoMapper.MapPersonalStage | dto_mapper.py:20-22 | the personal stage run as the source runs it equals the personal stage of the specification |
| DtoMapper.MapEducationStage | dto_mapper.py:25-26 | the education stage, with the loop of `_map_education_data`, equals its specification |
| DtoMapper.MapWorkStage | dto_mapper.py:29-30 | the work stage, with the selection and accumulation loops, equals its specification |
| DtoMapper.MapAdditionalStage | dto_mapper.py:37-38 | the additional-information stage, with the award loop, equals its specification |
| DtoMapper.MapToDto | dto_mapper.py:11-43 | `map_to_dto` run section by section, stopping at the first failure, equals the specification `DtoOf` |
| DtoMapper.PersonalKeepsFrame | dto_mapper.py:20-22 | the personal stage changes only section fields of the DTO |
| DtoMapper.EducationKeepsFrame | dto_mapper.py:25-26 | the education stage changes only section fields |
| DtoMapper.WorkKeepsFrame | dto_mapper.py:29-30 | the work stage changes only section fields |
| DtoMapper.ResearchKeepsFrame | dto_mapper.py:33-34 | the research stage changes only section fields |
| DtoMapper.AdditionalKeepsFrame | dto_mapper.py:37-38 | the additional-information stage changes only section fields |
| DtoMapper.OnlySectionsChange | dto_mapper.py:45-124 | whatever the input, a mapped DTO differs from the base DTO only in its six section fields: the job details, the save mode, `academic` and every `None` key keep their base values |
| DtoMapper.LookupAbsent | dto_mapper.py:20 | a key the `in` test does not find is skipped without failure |
| DtoMapper.AbsentStagesKeep | dto_mapper.py:20-38 | when no section name is found, every stage leaves the DTO as it is |
| DtoMapper.NoSectionsIsBase | dto_mapper.py:15-40 | input holding no section name gives exactly the base DTO; this covers a dict without those keys, a list without those strings, and a string not containing them |
| DtoMapper.PersonalStageFails | dto_mapper.py:20-22 | on a dict, the personal stage fails exactly when `personal_info` is present and not a dict |
| DtoMapper.PersonalStageFrame | dto_mapper.py:20-22 | the personal stage leaves the other four sections alone |
| DtoMapper.PersonalStageValue | dto_mapper.py:20-22 | the personal and address dicts are the two mappers' results on `personal_info`; an absent key leaves the DTO unchanged |
| DtoMapper.EducationStageFails | dto_mapper.py:25-26 | on a dict, the education stage fails exactly when `education` is present, truthy and not a list of dicts |
| DtoMapper.EducationStageFrame | dto_mapper.py:25-26 | the education stage leaves the other sections alone |
| DtoMapper.EducationStageValue | dto_mapper.py:25-26 | the education section is the mapper's result on `education`; an absent key leaves the DTO unchanged |
| DtoMapper.WorkStageFails | dto_mapper.py:29-30 | on a dict, the work stage fails exactly when `work_experience` is present and its mapping fails |
| DtoMapper.WorkStageFrame | dto_mapper.py:29-30 | the work stage leaves the other sections alone |
| DtoMapper.WorkStageValue | dto_mapper.py:29-30 | the work section is the mapper's result on `work_experience`; an absent key leaves the DTO unchanged |
| DtoMapper.ResearchStageFails | dto_mapper.py:33-34 | on a dict, the research stage fails exactly when `research_experience` is present and not a dict |
| DtoMapper.ResearchStageFrame | dto_mapper.py:33-34 | the research stage leaves the other sections alone |
| DtoMapper.ResearchStageValue | dto_mapper.py:33-34 | the research dict is the mapper's result on `research_experience`; an absent key leaves the DTO unchanged |
| DtoMapper.AdditionalStageFails | dto_mapper.py:37-38 | on a dict, the additional stage fails exactly when `additional_informations` is present and not a dict |
| DtoMapper.AdditionalStageFrame | dto_mapper.py:37-38 | the additional stage leaves the other sections alone |
| DtoMapper.AdditionalStageValue | dto_mapper.py:37-38 | `additionalInformations` is the mapper's result on the key's value; an absent key leaves the DTO unchanged |
| DtoMapper.DictFailsIff | dto_mapper.py:15-43 | for a dict, mapping fails exactly when some present section cannot be mapped. Such a section is personal data, research or additional information that is not a dict, a truthy education value that is not a list of dicts, or work experience whose mapping fails |
| DtoMapper.DictPersonalMapped | dto_mapper.py:20-22 | for a dict that maps, both personal dicts come from `personal_info` when it is present and stay `{}` when it is absent |
| DtoMapper.DictEducationWorkMapped | dto_mapper.py:25-30 | for a dict that maps, the education and work sections are their mappers' results when present and stay `{}` when absent |
| DtoMapper.DictResearchAdditionalMapped | dto_mapper.py:33-38 | for a dict that maps, the research dict is its mapper's result when present, else the base research dict; `additionalInformations` is its mapper's result when present, else `None` |
| DtoMapper.ScalarFails | dto_mapper.py:20 | `None`, a bool or a number as extracted data fails at the first `in` test |
| DtoMapper.SectionNameInSequenceFails | dto_mapper.py:20-38 | a list or string holding a section name passes `in` but fails at the subscript |
| Personal.PersonalDataOf | dto_mapper.py:126-184 | the personal dict is built exactly when `personal_info` is a dict |
| Personal.AddressDataOf | dto_mapper.py:186-245 | the address dict is built exactly when `personal_info` is a dict |
| Personal.PersonalAndAddressComplement | dto_mapper.py:126-245 | the two dicts from one `personal_info` split the keys: apart from the two ids, which are 0 in both, no key is set in both |
| Personal.PermanentIsCurrent | dto_mapper.py:188-223 | the permanent address repeats the current one: the same first line (the address given, or ""), country "1" for both, and the flag "Yes" |
| Personal.PersonalIdsFromCatalog | dto_mapper.py:132-147 | gender, marital status, nationality, religion and blood group ids are each the default or a catalog id of their category; a missing nationality is looked up as "India" |
| Personal.BirthDateIso | dto_mapper.py:135 | the date of birth is `None` or a 24-character ISO timestamp, and is a timestamp exactly when a string one of the formats reads was given; its ISO part reads back as the date given |
| MasterData.FirstMatchFrom | dto_mapper.py:488-491 | the index found is the first matching entry at or after the start, or -1 when none matches |
| MasterData.FirstMatch | dto_mapper.py:488-491 | -1 exactly when no entry matches; otherwise a matching entry with no match before it |
| MasterData.FirstMatchIs | dto_mapper.py:488-491 | the first matching entry is the one found |
| MasterData.FindMasterId | dto_mapper.py:477-493 | a falsy value, a category not in the catalog, or a blank text gives "1"; otherwise the result is "1" or the id of an entry of the category |
| MasterData.FindMasterIdFirstMatch | dto_mapper.py:487-491 | a searchable value gets the id of the first entry, in catalog order, whose stripped lower-cased name contains the lower-cased value |
| MasterData.FindMasterIdNoMatch | dto_mapper.py:493 | no entry containing the value gives "1" |
| MasterData.FindMasterIdBlank | dto_mapper.py:483-485 | a whitespace-only value gives "1" |
| MasterData.FindMasterIdCaseBlind | dto_mapper.py:490 | the letter case of the value does not change the id |
| Education.FirstKeyIn | dto_mapper.py:517-519 | the first table key (in table order) contained in the text, or -1 exactly when none is |
| Education.FirstKeyInIs | dto_mapper.py:517-519 | the first key the text holds is the one found |
| Education.MapQualificationLevel | dto_mapper.py:495-521 | the result is always one of "1" to "5"; a falsy level gives "3" |
| Education.LevelIdOf | dto_mapper.py:500-521 | the id of a stripped lower-cased level text is one of "1" to "5" |
| Education.LevelIdAt | dto_mapper.py:501-515 | every id in the table is a level id |
| Education.LevelIdOfFirstKey | dto_mapper.py:517-519 | the first key in table order that the text holds decides the id |
| Education.LevelIdOfNoKey | dto_mapper.py:521 | a text holding no key gets "3" |
| Education.ClassifyLevel | dto_mapper.py:527-537 | an entry's ordinal is between 1 and 5 when present |
| Education.ClassifyLevelIff | dto_mapper.py:527-537 | the tiers rank 5 > 4 > 3 > 2 > 1: a text gets ordinal k exactly when it holds a term of tier k and no term of a higher tier |
| Education.Ordinals | dto_mapper.py:526-537 | one ordinal (or none) per entry, in order |
| Education.Collect | dto_mapper.py:525-537 | the `levels` list is no longer than the entries |
| Education.CollectStep | dto_mapper.py:528-537 | one more entry appends its ordinal when it has one |
| Education.CollectSound | dto_mapper.py:525-537 | every collected ordinal comes from some entry |
| Education.CollectComplete | dto_mapper.py:525-537 | every entry's ordinal is collected |
| Education.CollectEmpty | dto_mapper.py:539 | `levels` is empty exactly when no entry is classified |
| Education.SeqMax | dto_mapper.py:539 | `max(levels)` is an element of the list and no element exceeds it |
| Education.LevelNumeral | dto_mapper.py:539 | `str()` of an ordinal 1..5 is its single digit, a level id |
| Education.HighestQualificationIsMax | dto_mapper.py:523-539 | "3" when no entry is classified; otherwise the numeral of some entry's ordinal that no other entry's ordinal exceeds; always a level id |
| Education.CollectedMax | dto_mapper.py:539 | the maximum of the collected ordinals is the ordinal of some entry, and no entry's ordinal is larger |
| Education.FindHighestQualification | dto_mapper.py:523-539 | the loop that collects the ordinals and takes their maximum computes `HighestQualification` |
| Education.PostGraduateSpelling | dto_mapper.py:530 | "post graduate" is written in a fixed set of characters |
| Education.PostGraduateHasNoKey | dto_mapper.py:501-515 | no key of the level-id table occurs in "post graduate" |
| Education.PostGraduateNotDoctoral | dto_mapper.py:528 | "post graduate" holds no doctoral term |
| Education.PostGraduateClassified | dto_mapper.py:530 | "post graduate" counts as ordinal 4 for the highest level |
| Education.LevelTablesDisagree | dto_mapper.py:495-539 | the two level tables disagree: "post graduate" gets level id "3" but counts as 4 for the highest level |
| Education.PostGraduateText | dto_mapper.py:500 | the stripped lower-cased text of "post graduate" is itself |
| Education.DesignationDegreeIncluded | dto_mapper.py:815-838 | every level the designation rule maps to a degree, the institution rule maps too |
| Education.NormalizeCourseName | dto_mapper.py:806-856 | a falsy course gives ""; otherwise the result is one of the five degree names or the stripped course |
| Education.CourseText | dto_mapper.py:811-856 | on the stripped course, the result is a degree name or the course itself |
| Education.CourseDesignationDoctoral | dto_mapper.py:815-817 | a designation given as the course of a doctoral entry becomes "Ph.D." |
| Education.CourseDegreeKept | dto_mapper.py:840-842 | a course already naming a degree, with no designation or institution term, is kept (stripped) |
| Education.CourseUnmapped | dto_mapper.py:856 | when the level names no known degree, the stripped course comes back |
| Education.DegreeCharsAvoidTerms | dto_mapper.py:815-828 | a text in the degree names' characters holds no designation or institution term |
| Education.DegreeNameShape | dto_mapper.py:841 | each degree name, upper-cased, holds a degree token |
| Education.DegreeNameStable | dto_mapper.py:806-856 | the five degree names are fixed points of the rules, whatever the level |
| Education.NormalizeCourseNameIdempotent | dto_mapper.py:806-856 | normalising a normalised course changes nothing |
| Education.CourseTextIdempotent | dto_mapper.py:811-856 | the string-level rules are idempotent |
| Education.FindRange | dto_mapper.py:753 | the leftmost `\d{4}-\d{4}` match at or after the start, or -1 when there is none |
| Education.ExtractYearFromCompletion | dto_mapper.py:740-767 | a falsy value gives "" |
| Education.CompletionYear | dto_mapper.py:745-767 | the year is "" or four digits that occur in the text |
| Education.ExactYearKept | dto_mapper.py:748-749 | a bare four-digit year comes back unchanged |
| Education.RangeGivesEndYear | dto_mapper.py:751-755 | "YYYY-YYYY" gives the end year |
| Education.RangeTextShape | dto_mapper.py:753 | a range text is a range match at 0 and ends with its second year |
| Education.NoDigitsNoYear | dto_mapper.py:757-767 | a text without digits ("Thesis submitted", "Ongoing") gives "" |
| Education.RangeWins | dto_mapper.py:751-755 | for any text, the end year of the leftmost `dddd-dddd` range is taken, even when a bare year occurs before it |
| Education.FirstYearWins | dto_mapper.py:757-760 | for any text with no range, the leftmost bounded 19xx/20xx year is taken |
| Education.NoYearEmpty | dto_mapper.py:762-767 | a text that is not itself four digits, with no range and no year, gives "" |
| Education.RangeBeatsEarlierYear | dto_mapper.py:751-760 | "2014 and 2016-2018" gives "2018" |
| Education.EmbeddedYearFound | dto_mapper.py:757-760 | a 19xx/20xx year after a digit-free text is found, despite the ongoing phrase |
| Education.GetCurrentStatus | dto_mapper.py:769-780 | a string exactly when the value is truthy and holds an ongoing phrase; it is the title-cased, stripped text, equal to it up to case |
| EducationSection.EntryShape | dto_mapper.py:268-291 | every entry has a level id, a status that is `None` or text, a course text, and a completion year that is four digits or empty |
| EducationSection.MapEach | dto_mapper.py:267-268 | one result per record, in order |
| EducationSection.MapEachStep | dto_mapper.py:267-268 | one more record appends its entry |
| EducationSection.Entries | dto_mapper.py:266-291 | one entry per record |
| EducationSection.HighestIsLevelId | dto_mapper.py:264 | the highest level is a level id |
| EducationSection.EducationSectionOf | dto_mapper.py:247-304 | Ok exactly for a falsy value or a list of dicts. The entry list is empty exactly when the highest level is `None`. There is one entry per record, and a non-null highest level is a level id |
| EducationSection.MapEducationData | dto_mapper.py:247-304 | the loop that appends an entry per record computes `EducationSectionOf` |
| EducationSection.SectionOfRecords | dto_mapper.py:263-297 | for a list of records, the section holds the records' entries in order and the highest level `_find_highest_qualification` gives |
| WorkExperience.FirstFrom | dto_mapper.py:331-344 | the `for … break` search: the first index at or after the start whose element passes the test, or -1, with no passing element before it |
| WorkExperience.FirstFromAt | dto_mapper.py:331-344 | the search stops at the first passing element |
| WorkExperience.FirstFromNone | dto_mapper.py:331-344 | the search gives -1 when no element passes |
| WorkExperience.FirstOngoingFrom | dto_mapper.py:331-335 | the first ongoing entry at or after the start, or -1 when none is |
| WorkExperience.FirstResearchFrom | dto_mapper.py:340-344 | the first entry with a research designation at or after the start, or -1 |
| WorkExperience.FirstOngoingAt | dto_mapper.py:331-335 | the first ongoing entry is the one found |
| WorkExperience.FirstResearchAt | dto_mapper.py:340-344 | the first research entry is the one found |
| WorkExperience.NoOngoingFrom | dto_mapper.py:331-335 | no ongoing entry gives -1 |
| WorkExperience.NoResearchFrom | dto_mapper.py:340-344 | no research entry gives -1 |
| WorkExperience.SelectCurrent | dto_mapper.py:329-348 | -1 exactly for an empty list; otherwise an index into the list |
| WorkExperience.CurrentIsFirstOngoing | dto_mapper.py:331-335 | tier 1: the first ongoing entry is chosen when it is not an empty dict |
| WorkExperience.CurrentIsFirstResearch | dto_mapper.py:337-344 | tier 2: with no ongoing entry, the first research entry is chosen |
| WorkExperience.EmptyOngoingFallsThrough | dto_mapper.py:337-344 | an empty dict found by tier 1 is falsy, so tier 2 runs |
| WorkExperience.CurrentIsFirstEntry | dto_mapper.py:346-348 | tier 3: with neither, the first entry is chosen |
| WorkExperience.EmptyCurrentIsFirst | dto_mapper.py:329-348 | an empty chosen entry can only be the first entry |
| WorkExperience.ResearchRoleNotEmpty | dto_mapper.py:341-342 | an empty dict has no research designation |
| WorkExperience.FindCurrentExperience | dto_mapper.py:329-348 | the selection loops compute `SelectCurrent` |
| WorkExperience.DeclaredDurationWins | dto_mapper.py:622-626 | a declared non-zero duration is taken as it is, dates aside |
| WorkExperience.UnparsableDurationSkipped | dto_mapper.py:620-637 | a declared `years` or `months` that is not `None` and that `int()` refuses ("2.5", "abc", a list, a dict) makes the entry count for nothing |
| WorkExperience.EmptyDurationRefused | dto_mapper.py:622-623 | `int("")` is refused, so a declared empty duration skips the entry |
| WorkExperience.SumByDrop | dto_mapper.py:615-637 | a skipped entry can be dropped without changing the totals |
| WorkExperience.RawPreviousStep | dto_mapper.py:615-634 | the totals after one more entry add its contribution |
| WorkExperience.CurrentNotCounted | dto_mapper.py:616-618 | the current entry adds nothing: the totals are those of the other entries |
| WorkExperience.NormalizeMonths | dto_mapper.py:639-641 | months end below 12 and the total number of months is unchanged |
| WorkExperience.CalculatePreviousExperience | dto_mapper.py:610-643 | the loop computes the normalised totals of the other entries: months below 12, total months preserved |
| WorkExperience.CurrentExperienceOf | dto_mapper.py:353-374 | the current-entry dict is built exactly when `from_date` is accepted by `_parse_date_array` and `to_date` is a string or absent; its years and months are the date helpers' results as text |
| WorkExperience.PreviousTotals | dto_mapper.py:351 | the totals when entry k is current are the normalised totals of the other entries |
| WorkExperience.NoWorkNotWorking | dto_mapper.py:308-327 | an empty work history is not current work, with "0" totals and no current entry |
| WorkExperience.WorkingIffChosenNotEmpty | dto_mapper.py:353-377 | for a non-empty list, "Yes" and a current dict exactly when the chosen entry is not an empty dict, which can only be the first entry |
| WorkExperience.MapWorkExperience | dto_mapper.py:306-394 | the selection, accumulation and dict building compute `WorkSection` |
| Research.ResearchSection | dto_mapper.py:396-423 | Ok exactly for a dict. Both flags agree and are "Yes" or "No", and they are "Yes" exactly when `has_research` (default `False`) is truthy |
| Research.NoResearchNearlyBase | dto_mapper.py:77-100 | a dict reporting no research maps to the base research dict except the nested flag, which the base leaves `None` and the mapping sets to "No" |
| Research.SanitizedResearchFlag | resume_parser.py:222-233 | on sanitised input the flag is "No" only when `has_research` is absent or was `None`, `""`, `[]` or `{}` |
| Research.SanitizedFalseReadsYes | dto_mapper.py:398-401 | `"has_research": false` reaches the mapper as "False" and reads "Yes" |
| AdditionalInfo.SafeGet | dto_mapper.py:427-432 | `None` exactly when the value (or default) is `None`, `""` or `[]`; otherwise the value; never `""` or `[]` |
| AdditionalInfo.DescriptionCases | dto_mapper.py:450-454 | a non-empty remainder not opening with "(" is parenthesised; otherwise it follows a space |
| AdditionalInfo.NormalizedAwards | dto_mapper.py:434-463 | a falsy or non-list value comes back unchanged; a list keeps its length |
| AdditionalInfo.NormalizeOne | dto_mapper.py:441-461 | the loop body appends the shortened form of one award |
| AdditionalInfo.NormalizeAwards | dto_mapper.py:434-463 | the loop computes `NormalizedAwards` |
| AdditionalInfo.ShortOrForeignAwardKept | dto_mapper.py:441-461 | non-strings and strings of at most 80 characters are kept |
| AdditionalInfo.LongAwardTruncated | dto_mapper.py:457-459 | a long text with no "award" in any case becomes its first 80 characters and "...", 83 in all |
| AdditionalInfo.TruncationStable | dto_mapper.py:457-459 | a truncated award is left unchanged by a second pass |
| AdditionalInfo.DotsCompleteNoAward | dto_mapper.py:459 | appending "..." cannot create an "award" |
| AdditionalInfo.SplitAtFirstAward | dto_mapper.py:443-454 | a long text is split at its first lower-case "award" into the stripped main part with " Award" and the described remainder |
| AdditionalInfo.LongAwardSplit | dto_mapper.py:443-454 | the result starts with the stripped main part and " Award". The remainder follows in parentheses, or after one space when it is empty or opens with "(" |
| AdditionalInfo.CapitalAwardKept | dto_mapper.py:443-456 | a long text spelling the word only with a capital passes the lower-case test but has nothing to split on, so it is kept whole |
| AdditionalInfo.AdditionalInfoOf | dto_mapper.py:425-475 | Ok exactly for a dict, and then no field is `""` or `[]`, the normalised awards included |
| AdditionalInfo.MapAdditionalInfo | dto_mapper.py:425-475 | the dict built with the award loop equals `AdditionalInfoOf` |
| AdditionalInfo.NormalizedAwardsFilled | dto_mapper.py:468 | normalising a value that is `None` or not blank keeps it so |
| AdditionalInfo.MissingSkillsNull | dto_mapper.py:467 | a missing `skills` is `None`, not its `[]` default |
| Dates.DaysInYear | dto_mapper.py:600 | a year has 366 days exactly when it is a leap year |
| Dates.NextDayNumber | dto_mapper.py:600 | consecutive calendar days have consecutive day numbers, so date subtraction counts days |
| Dates.ParseWith | dto_mapper.py:731 | a parsed date is a valid calendar date |
| Dates.ParseDate | dto_mapper.py:579-584 | a parsed date is valid |
| Dates.ParseDateAt | dto_mapper.py:579-584 | the first format that fits decides |
| Dates.ParseDateNone | dto_mapper.py:579-584 | a text no format fits is not a date |
| Dates.TryFormats | dto_mapper.py:788-793 | the loop over the formats computes `ParseDate` |
| Dates.ParseWithRender | dto_mapper.py:579 | every format reads back what it writes |
| Dates.IsoRejectsOthers | dto_mapper.py:579 | the ISO format never fits a date written in another format |
| Dates.ParseDateIso | dto_mapper.py:579-584 | an ISO date reads back as itself |
| Dates.ParseDateDayFirstDash | dto_mapper.py:579-584 | a day-first dashed date reads back as itself |
| Dates.ParseDateSlashed | dto_mapper.py:579-584 | a slashed text is read month-first when it can be, else day-first |
| Dates.ParseDateMonthFirstSlash | dto_mapper.py:579-584 | a month-first slashed date reads back as itself |
| Dates.MonthFirstReadsDayFirst | dto_mapper.py:579 | read month-first, a day-first slashed date swaps day and month |
| Dates.ParseDateDayFirstSlash | dto_mapper.py:579-584 | a day-first slashed date reads back as itself exactly when its day exceeds 12 or equals its month; otherwise day and month come back swapped |
| Dates.EntryDates | dto_mapper.py:577-598 | both dates of an entry, when present, are valid |
| Dates.ExperienceFromDates | dto_mapper.py:572-608 | (0, 0) when a date does not parse; otherwise the years are the whole 365-day years of the span (`days // 365`), and the months are the whole 30-day months of the rest (`(days % 365) // 30`, 0 to 12) |
| Dates.YearsFromDates | dto_mapper.py:645-680 | 0 when a date does not parse; otherwise whole 365-day years |
| Dates.MonthsFromDates | dto_mapper.py:682-720 | never negative; 0 when a date does not parse |
| Dates.YearsMonthsAddUp | dto_mapper.py:711-715 | when the calendar months between the dates exceed 12 times the years, 12 times the years plus the months equals them; otherwise the months are cut off at 0 |
| Dates.PresentIsToday | dto_mapper.py:661-662 | "present" or "current" in any case is measured up to today |
| Dates.FormatDate | dto_mapper.py:722-738 | `None`, or a 24-character ISO text ending in "T18:30:00.000Z"; text exactly when a string one of the formats reads was given, and then its first ten characters read back as the date that string gives |
| Dates.FormatDateIso | dto_mapper.py:731-732 | an ISO date keeps its text, with the time appended |
| Dates.FindYear | dto_mapper.py:799 | the leftmost `\b(19|20)\d\d\b` match at or after the start, or -1 when there is none |
| Dates.FindYearIs | dto_mapper.py:799 | the leftmost match is the one found |
| Dates.NoDigitNoYear | dto_mapper.py:799 | a text with no digit holds no year |
| Dates.ParseDateArray | dto_mapper.py:782-804 | fails exactly for a truthy non-string; the `[year, month, day]` it builds form a valid date |
| Dates.ParseDateArrayNoneCases | dto_mapper.py:784-785 | an empty value, or "present" or "current" in any letter case, gives `None` |
| Dates.ParseDateArrayYearFallback | dto_mapper.py:797-802 | a text no format reads gives `[year, 1, 1]` for its leftmost bounded 19xx/20xx year |
| Dates.ParseDateArrayNoYear | dto_mapper.py:804 | a text no format reads and holding no such year gives `None` |
| Dates.ParseDateArrayValid | dto_mapper.py:787-804 | a non-empty non-ongoing string gives `None` or a list, and a text that parses gives its own date |
| PyStr.SplitOnce | dto_mapper.py:445 | `split(sep, 1)`: two parts exactly when the separator occurs; they rejoin around the first occurrence |
| PyStr.Strip | dto_mapper.py:483 | `strip()`: no whitespace remains at either end, and the result is empty exactly when the text is all whitespace |
| ResumeParser.SanitizeKeepsShape | resume_parser.py:222-233 | sanitising keeps every key in order and every list length |
| ResumeParser.SanitizeStringLeaves | resume_parser.py:222-233 | every leaf of a sanitised tree is a string |
| ResumeParser.SanitizeFixesStringTrees | resume_parser.py:222-233 | a tree with string leaves is unchanged |
| ResumeParser.SanitizeIdempotent | resume_parser.py:222-233 | sanitising twice is sanitising once |
| ResumeParser.SanitizeTruthy | resume_parser.py:228-233 | after sanitising, a value is falsy only if it was `None`, `""`, `[]` or `{}`; `False` and `0` become truthy strings |
| ResumeParser.KeyIndexSameKeys | resume_parser.py:225 | dicts with the same keys in order find a key at the same place |
| ResumeParser.SanitizeGet | resume_parser.py:225 | looking a key up in a sanitised dict gives the sanitised value; an absent key stays absent |
| ResumeParser.StripFencesRoundTrip | resume_parser.py:205-208 | a fenced answer gives back exactly its body |
| ResumeParser.OpenFenceNotClosing | resume_parser.py:205-208 | the opening fence plus fewer than three characters does not end with a closing fence |
| ResumeParser.StripFencesCases | resume_parser.py:205-208 | each fence is removed only when present, and nothing else is removed |
| ResumeParser.BothFencesCut | resume_parser.py:205-208 | a text inside both fences loses exactly the two fences |
| ResumeParser.AfterOpenFence | resume_parser.py:205-208 | what follows an opening fence still ends with the closing fence |
| ResumeParser.OpenFenceCut | resume_parser.py:205-206 | a text with only the opening fence loses only that fence |
| ResumeParser.FileKindOf | resume_parser.py:39-49 | accepted exactly for ".pdf", ".doc" or ".docx" in any case; PDF exactly for ".pdf"; anything else is refused as unsupported |
| ResumeParser.EmptyTextStopsBeforeOracle | resume_parser.py:26-29 | whitespace-only text is refused before the model is asked, whatever the model would answer |
| ResumeParser.UnsupportedStopsBeforeExtraction | resume_parser.py:42-47 | a name of any other type is refused before anything is extracted |
| ResumeParser.ParseResumeStringLeaves | resume_parser.py:20-37 | whatever the model answers, a successful parse has only strings at its leaves |
| ResumeParser.Sanitize | resume_parser.py:222-233 | defines `_sanitize_data_types`. Dicts and lists are rebuilt in order, `None` becomes "", and numbers and booleans become their `str()`. Its properties are the Sanitize lemmas above |
| ResumeParser.StripFences | resume_parser.py:205-208 | defines the fence removal: first a leading "```json" is cut, then a trailing "```". Its properties are `StripFencesCases` and the fence lemmas |
| ResumeParser.StructureResponse | resume_parser.py:202-220 | defines the handling of the model's answer: strip it, remove the fences, decode it (a parameter), and sanitise it. A decoding failure is its own error |
| ResumeParser.ParseResume | resume_parser.py:20-49 | defines `parse_resume`: choose the extractor by name, refuse blank text, then structure the model's answer. Its properties are the three lemmas above |
| DtoMapper.DtoOf | dto_mapper.py:11-43 | defines `map_to_dto` as the five stages in source order, the first failure ending the run. Its properties are `DictFailsIff`, `OnlySectionsChange`, `NoSectionsIsBase` and the `Dict*Mapped` lemmas |
| DtoMapper.BaseDto | dto_mapper.py:45-124 | defines `_create_base_dto`: the job details, the six empty or default sections, and `None` elsewhere |
| DtoMapper.WithPersonal | dto_mapper.py:20-22 | defines the personal stage. Its properties are the `PersonalStage*` lemmas |
| DtoMapper.WithEducation | dto_mapper.py:25-26 | defines the education stage. Its properties are the `EducationStage*` lemmas |
| DtoMapper.WithWork | dto_mapper.py:29-30 | defines the work stage. Its properties are the `WorkStage*` lemmas |
| DtoMapper.WithResearch | dto_mapper.py:33-34 | defines the research stage. Its properties are the `ResearchStage*` lemmas |
| DtoMapper.WithAdditional | dto_mapper.py:37-38 | defines the additional-information stage. Its properties are the `AdditionalStage*` lemmas |
| WorkExperience.WorkSection | dto_mapper.py:306-394 | defines `_map_work_experience`: the chosen current entry, the previous totals and the returned dict. Its properties are `NoWorkNotWorking`, `WorkingIffChosenNotEmpty` and `PreviousTotals` |
| WorkExperience.EntryDuration | dto_mapper.py:620-637 | defines one previous entry's contribution: its declared values, or its date span when both are 0 and both dates are given. `None` means the entry is skipped. Its properties are `DeclaredDurationWins` and `UnparsableDurationSkipped` |
| WorkExperience.IsOngoing | dto_mapper.py:332-333 | defines the tier-1 test: the lower-cased `to_date` is "present", "current" or "", or contains "present" |
| WorkExperience.IsResearchRole | dto_mapper.py:341-342 | defines the tier-2 test: the lower-cased designation holds one of the five research terms |
| Education.HighestQualification | dto_mapper.py:523-539 | defines `_find_highest_qualification` as "3" or the numeral of the largest collected ordinal. Its properties are `HighestQualificationIsMax` and `CollectedMax` |
| Education.DesignationDegree | dto_mapper.py:815-826 | defines the degree named by a level when the course is a designation |
| Education.LevelDegree | dto_mapper.py:828-838 | defines the degree named by a level when the course is an institution or a degree token |
| EducationSection.EntryOf | dto_mapper.py:268-291 | defines one entry of `qualificationLevelsList`. Its properties are `EntryShape` |
| AdditionalInfo.ShortenAward | dto_mapper.py:443-459 | defines the shortening of one long award text. Its properties are `SplitAtFirstAward`, `LongAwardSplit`, `LongAwardTruncated` and `CapitalAwardKept` |
| AdditionalInfo.NormalizeAward | dto_mapper.py:441-461 | defines the treatment of one list element: only a string longer than 80 characters changes. Its properties are `ShortOrForeignAwardKept` and `TruncationStable` |
| Dates.ToDateOf | dto_mapper.py:586-597 | defines the reading of `to_date`: "present" or "current" in any case is today, and anything else goes through the formats. Its property is `PresentIsToday` |
| PyJson.PyEq | dto_mapper.py:617 | defines Python `==` on JSON values: `True == 1`, lists compared element by element, dicts compared by keys whatever the order |
| PyJson.Str | dto_mapper.py:483 | defines `str()`: a string is itself, and anything else is its `repr` |
| PyJson.Repr | dto_mapper.py:483 | defines `repr()` of JSON values, with Python's quoting of strings |
| PyJson.IntOf | dto_mapper.py:622-623 | defines `int()` of a JSON value. `None` stands for `ValueError` or `TypeError` |
| PyJson.In | dto_mapper.py:20 | defines `in`: a dict key, a list element equal to the string, or a substring. `None` stands for `TypeError` on any other value |
| PyJson.Subscript | dto_mapper.py:21 | defines `[]` with a string key: only a dict holding the key succeeds |
| PyStr.ParseIntToStr | dto_mapper.py:622-623 | `int()` reads back every integer's `str()` |
| PyStr.ParseInt | dto_mapper.py:622-623 | defines `int()` of a string: surrounding whitespace, an optional sign, digits with single underscores between them |

## Left out

- Reading the master-data file (`__init__`): the catalog is a parameter. The id and name of each value are kept as the text `str()` gives of them.
- `datetime.now()`: the current date is a parameter `today`.
- The OpenAI client, its prompt, and the PDF and Word extractors: these are function parameters. So is `json.loads`, and the model's answer is any value it returns.
- `main.py` and `deploy.py` (HTTP handling and deployment) are not part of this model.
- Exception messages: every failure inside `map_to_dto` is one `MappingFailed`, and the parser's failures are named by cause.
- Floating-point numbers in the decoded JSON: the model's `Json` has integers only.
- `_calculate_total_experience` (`dto_mapper.py:541-570`) is never called by the mapper. It is the same loop as `_calculate_previous_experience` without the skip, so it is not modelled separately.
- `strptime` leniency: the formats are read fixed-width (four-digit year, two-digit month and day). Python also accepts one-digit months and days, which the model does not.
- `Lower`, `Upper`, `Title` and `Strip` know ASCII letters and ASCII whitespace only. `\b` in the year pattern uses ASCII word characters.
- AdditionalInfo.NormalizedAwards: its own contract states only that a list keeps its length. The per-element behaviour is stated by the lemmas on `NormalizeAward`.
- Education.ExtractYearFromCompletion: its own contract covers only the empty value. The year taken from the stripped text is stated for all texts by `ExactYearKept`, `RangeWins`, `FirstYearWins` and `NoYearEmpty`, which together cover every case of `CompletionYear`.
- Dates.MonthsFromDates: its own contract states only that the result is never negative and is 0 when a date fails. Its value for dates that parse is fixed by the lemma `YearsMonthsAddUp`: the calendar months minus 12 times the years, or 0 when that is not positive.
