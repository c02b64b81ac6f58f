# Timetable engine model

This project models the core of a university timetable generator in Dafny and proves properties of the model. Given each requested course's sections in English and French, the generator does four things:

- It applies the user's list of unavailable components. The named components are marked CLOSED in place, and the generator counts how many it closed.
- It expands each section into its *options*. An option is all of the section's OPEN lectures plus one OPEN lab, tutorial, discussion group, seminar or workshop of each type the section has.
- It forms every combination of one option per course. It keeps those that respect the English and French quotas, the no-weekend flag and the day limit, and that contain no two components whose time slots overlap.
- It scores schedules from professor ratings.

The modules follow the program's files:

| module | file | models |
|---|---|---|
| `Wrappers` | wrappers.dfy | `Option` |
| `Seqs` | seqs.dfy | list filtering, flattening and `itertools.product` (`CrossProduct`, first dimension slowest) |
| `Dicts` | dicts.dfy | insertion-ordered Python dictionaries as sequences of key/value pairs |
| `Models` | models.dfy | `Component`, `Section`, `SectionData`, the status/type/day literals, the section queries, the course map, the tagged options a schedule is made of |
| `Gatherer` | gatherer.dfy | course-code language helpers and the default season/year |
| `TimeSlots` | time_slots.dfy | `DAY_MAP`, `component_to_time_tuple`, `times_conflict`, the pairwise conflict scan |
| `SectionOptions` | section_options.dfy | `generate_section_options` |
| `Enumerator` | enumerator.dfy | `generate_all_schedules`, `has_weekend_classes`, `count_unique_days` |
| `Patches` | patches.dfy | `parse_course_code`, `apply_unavailable_patches` (class `Catalog`) |
| `ProfScoring` | prof_scoring.dfy | `calculate_prof_score`, `calculate_schedule_score` |

The operations the program performs step by step are methods with loops, each proved equal to a specification function. The properties are proved about those functions. The patch applier changes the course data in place, so it is a method of the class `Patches.Catalog` whose field `courses` it reassigns. Components and sections are values. Closing a component replaces it in its section, and the section in its course.

## Model

| member | source | states |
|---|---|---|
| Seqs.CrossProduct | old_python_code/scheduler/scheduler.py:254 | the product has as many elements as the product of the dimension lengths |
| Seqs.CrossProductOrder | old_python_code/scheduler/scheduler.py:365 | the product is one block per entry of the first dimension, in order, each block the product of the remaining dimensions: the first dimension varies slowest |
| Seqs.CrossProductMembership | old_python_code/scheduler/scheduler.py:365 | a list is in the product iff it has one entry per dimension, each taken from that dimension |
| Models.ParseStatus | old_python_code/scheduler/models.py:15 | a status literal parses iff it is one of OPEN, CLOSED, FULL, WAITLIST, and parsing inverts printing |
| Models.ParseType | old_python_code/scheduler/models.py:16 | a type literal parses iff it is one of the six component types, and parsing inverts printing |
| Models.ParseDay | old_python_code/scheduler/models.py:17 | a day literal parses iff it is one of MO..SU, and parsing inverts printing |
| Models.LiteralsRoundTrip | old_python_code/scheduler/models.py:15-17 | every status, type and day value survives printing and parsing back |
| Models.LiteralSetSizes | old_python_code/scheduler/models.py:15-17 | there are exactly 4 status, 6 type and 7 day literals, all distinct |
| Models.ComponentsByType | old_python_code/scheduler/models.py:43-48 | a component is returned iff it is in the section and has the requested type |
| Models.ComponentsByTypeKeepsOrder | old_python_code/scheduler/models.py:43-48 | the result follows dictionary order: splitting the components splits the result at the same place |
| Models.GetAllInstructors | old_python_code/scheduler/models.py:50-56 | the set is the section's instructor plus every non-empty component instructor |
| Models.GetSection | old_python_code/scheduler/models.py:64-66 | `None` iff no section has the id; otherwise an entry with that id holds the result |
| Models.GetAllSections | old_python_code/scheduler/models.py:68-70 | the sections in dictionary order, one per entry |
| Models.GetOpenSections | old_python_code/scheduler/models.py:72-77 | a section is returned iff it is stored and has at least one OPEN component |
| Gatherer.IsFrench | old_python_code/scheduler/gatherer.py:8-10 | a code is French iff its level digit (index 1 of the number) is one of 5, 6, 7, 8, 9 |
| Gatherer.LanguageEquivalent | old_python_code/scheduler/gatherer.py:13-19 | same length, only index 1 changes; its digit goes up by 4 for an English code and down by 4 for a French one |
| Gatherer.LanguageEquivalentInvolution | old_python_code/scheduler/gatherer.py:8-19 | for level digits 1-8 the transform flips `is_french` and applying it twice gives back the code |
| Gatherer.EdgeDigitsKeepLanguage | old_python_code/scheduler/gatherer.py:8-19 | for level digits 0 and 9 the language is kept and a second application does not return the code |
| Gatherer.DefaultSeason | old_python_code/scheduler/gatherer.py:22-32 | summer iff month <= 4, fall iff 4 < month <= 8, winter iff month > 8 |
| Gatherer.DefaultYear | old_python_code/scheduler/gatherer.py:35-37 | the current year, plus one exactly when the season is winter |
| TimeSlots.DayIndex | old_python_code/scheduler/scheduler.py:15 | `DAY_MAP` sends the seven days to 0..6 |
| TimeSlots.DayIndexIsBijective | old_python_code/scheduler/scheduler.py:15 | every index 0..6 comes from exactly one day |
| TimeSlots.ComponentToTimeTuple | old_python_code/scheduler/scheduler.py:179-184 | the slot's day is the day's index and its bounds are the timestamps floored to minutes |
| TimeSlots.TimesConflict | old_python_code/scheduler/scheduler.py:187-189 | conflicting slots are on the same day; for slots that start before they end, a conflict means the later start precedes the earlier end, so the intervals intersect |
| TimeSlots.ConflictBasics | old_python_code/scheduler/scheduler.py:187-189 | conflict is symmetric; slots on different days or touching end to start never conflict |
| TimeSlots.ConflictIffSharedMinute | old_python_code/scheduler/scheduler.py:187-189 | two non-empty slots conflict iff they share a day and a minute (half-open intervals) |
| TimeSlots.EmptySlotInsideConflicts | old_python_code/scheduler/scheduler.py:187-189 | a zero-length slot strictly inside a same-day slot covers no minute yet conflicts with it, so the shared-minute reading needs non-empty slots |
| TimeSlots.ComponentsOnDifferentDaysNeverConflict | old_python_code/scheduler/scheduler.py:179-189 | components meeting on different days never conflict |
| TimeSlots.AnyConflict | old_python_code/scheduler/scheduler.py:395-402 | some pair of distinct positions conflicts, in either order; fewer than two slots never conflict |
| TimeSlots.HasConflict | old_python_code/scheduler/scheduler.py:394-402 | the early-exit pairwise scan reports a conflict iff some pair i < j conflicts |
| SectionOptions.OpenOfType | old_python_code/scheduler/scheduler.py:204-208 | exactly the section's OPEN components of the type |
| SectionOptions.SectionOptions | old_python_code/scheduler/scheduler.py:210-222 | no option when some lecture is not OPEN, or when a present LAB/TUT/DGD/SEM/WRK type has no OPEN instance |
| SectionOptions.SectionOptionCount | old_python_code/scheduler/scheduler.py:228-261 | an admissible section has exactly the product over LAB, TUT, DGD, SEM, WRK of the OPEN count (absent types count 1) |
| SectionOptions.SectionOptionMembership | old_python_code/scheduler/scheduler.py:228-261 | an option is generated iff the section is admissible and its components are the OPEN lectures followed by one OPEN pick per present type, in LAB, TUT, DGD, SEM, WRK order |
| SectionOptions.OptionComponentsAreOpen | old_python_code/scheduler/scheduler.py:227-255 | every component of every option is an OPEN component of the section |
| SectionOptions.OptionsIncludeAllLectures | old_python_code/scheduler/scheduler.py:210-255 | every option contains every lecture of the section |
| SectionOptions.GroupByType | old_python_code/scheduler/scheduler.py:199-208 | each type's list holds the section's components (or OPEN components) of that type, in order |
| SectionOptions.AppendOptions | old_python_code/scheduler/scheduler.py:253-260 | one option per product element: the lectures followed by the picked components |
| SectionOptions.GenerateSectionOptions | old_python_code/scheduler/scheduler.py:192-262 | the generated list is the option list specified above |
| Enumerator.CourseOptionOrigin | old_python_code/scheduler/scheduler.py:329-347 | every candidate of a course carries its code and is an option of one of its sections in the tagged language |
| Enumerator.CandidateListsIndex | old_python_code/scheduler/scheduler.py:326-349 | the i-th candidate list belongs to the i-th course: English options first, then French |
| Enumerator.ValidScheduleMembership | old_python_code/scheduler/scheduler.py:365-405 | a schedule is returned iff it takes one candidate of each course, in course order, and passes every filter |
| Enumerator.ScheduleOrigin | old_python_code/scheduler/scheduler.py:326-365 | a returned schedule has one option per course, carrying its code and drawn from one of its sections |
| Enumerator.ScheduleRespectsConstraints | old_python_code/scheduler/scheduler.py:368-405 | a returned schedule meets every quota that is not -1, has no weekend meeting when excluded, uses at most `max_days` days, and has no conflicting pair |
| Enumerator.RelaxingConstraintsGivesSuperset | old_python_code/scheduler/scheduler.py:368-386 | loosening quotas, the weekend flag or the day limit only adds schedules |
| Enumerator.NoCoursesYieldsOneEmptySchedule | old_python_code/scheduler/scheduler.py:365-405 | with no course, quotas of at least -1 and a day limit, when set, of at least 0, the result is exactly one empty schedule |
| Enumerator.DaysUsedAtMostSeven | old_python_code/scheduler/scheduler.py:298-307 | a combination uses at most seven days |
| Enumerator.DayLimitOfSevenNeverRejects | old_python_code/scheduler/scheduler.py:384-386 | a day limit of 7 or more accepts exactly what no limit accepts |
| Enumerator.HasWeekendClasses | old_python_code/scheduler/scheduler.py:286-295 | true iff some component of the combination meets on Saturday or Sunday |
| Enumerator.CountUniqueDays | old_python_code/scheduler/scheduler.py:298-307 | the number of distinct days of the combination's components |
| Enumerator.ScheduleTimes | old_python_code/scheduler/scheduler.py:389-392 | the slots of every component, option by option |
| Enumerator.AppendTagged | old_python_code/scheduler/scheduler.py:336-339 | each option of a section is appended, tagged with the language and course code |
| Enumerator.TagSectionOptions | old_python_code/scheduler/scheduler.py:334-347 | the tagged options of every section of one language map, section by section |
| Enumerator.GatherCandidates | old_python_code/scheduler/scheduler.py:326-349 | the candidate lists of all courses, in course order |
| Enumerator.KeepCombination | old_python_code/scheduler/scheduler.py:368-404 | the four filters, in order, keep the combination iff it passes them all |
| Enumerator.FilterCombinations | old_python_code/scheduler/scheduler.py:362-405 | the kept combinations, in product order |
| Enumerator.GenerateAllSchedules | old_python_code/scheduler/scheduler.py:310-408 | the result is the filtered product of the candidate lists |
| Patches.BeforeHyphen | old_python_code/scheduler/scheduler.py:129 | `split('-')[0]` is the longest hyphen-free prefix |
| Patches.SectionIdOf | old_python_code/scheduler/scheduler.py:129 | the section id is the label's first character |
| Patches.SectionIdDefinedness | old_python_code/scheduler/scheduler.py:129 | the section id exists iff the label is non-empty and does not start with a hyphen |
| Patches.ParseCourseCode | old_python_code/scheduler/scheduler.py:72-77 | subject and number concatenate to the code; the subject is its first three characters |
| Patches.EquivalentCourse | old_python_code/scheduler/scheduler.py:136-139 | same length; only the level digit (index 4 of the full code) changes, going down by 4 when it is 5 or more and up by 4 otherwise |
| Patches.EquivalentCourseInvolution | old_python_code/scheduler/scheduler.py:136-139 | for level digits 1-8 the equivalent differs from the code and its equivalent is the code again |
| Patches.ResolveCourse | old_python_code/scheduler/scheduler.py:131-141 | a loaded code resolves to itself; otherwise to its equivalent iff that is loaded; a resolved code is always loaded |
| Patches.CloseMatchingEffect | old_python_code/scheduler/scheduler.py:150-155 | exactly the components carrying the label become CLOSED; keys, order and every other field are kept |
| Patches.CountMatchingIsFilterLength | old_python_code/scheduler/scheduler.py:150-156 | the count is the number of component entries carrying the label, whatever their previous status |
| Patches.CloseMatchingIdempotent | old_python_code/scheduler/scheduler.py:150-156 | closing twice equals closing once, and the count is unchanged |
| Patches.PatchedData | old_python_code/scheduler/scheduler.py:124-158 | a patch keeps the loaded course codes |
| Patches.AfterPatches | old_python_code/scheduler/scheduler.py:124-160 | the patches in order keep the loaded course codes |
| Patches.PatchEffect | old_python_code/scheduler/scheduler.py:124-158 | an unresolved patch changes nothing and counts 0; a resolved one changes only its course, in both language maps, and counts the labelled components of the named section in both |
| Patches.PatchedLanguageEffect | old_python_code/scheduler/scheduler.py:147-155 | in a language map only the named section changes, and only in its components |
| Patches.PatchedLanguageIdempotent | old_python_code/scheduler/scheduler.py:147-156 | re-patching a language map changes nothing and counts the same |
| Patches.PatchIdempotent | old_python_code/scheduler/scheduler.py:124-158 | re-applying a patch changes nothing further and counts the same components again |
| Patches.LabelledComponentsClosed | old_python_code/scheduler/scheduler.py:147-155 | after a resolved patch every component carrying the label in the named section is CLOSED |
| Patches.PatchedComponentsNeverOffered | old_python_code/scheduler/scheduler.py:150-155 | after a resolved patch no option of the patched section contains a component with the label |
| Patches.CloseLabelled | old_python_code/scheduler/scheduler.py:150-156 | the in-place scan closes the labelled components and counts them |
| Patches.PatchSections | old_python_code/scheduler/scheduler.py:147-156 | the named section of one language map, when present, is patched; the count is its matches |
| Patches.Catalog.ApplyUnavailablePatches | old_python_code/scheduler/scheduler.py:110-160 | the course data become the data after all patches in order; the result is the summed count |
| Patches.Catalog.ApplyPatch | old_python_code/scheduler/scheduler.py:124-156 | one patch: skipped when unresolved, otherwise both language maps of its course |
| Patches.Catalog.PatchCourseInPlace | old_python_code/scheduler/scheduler.py:146-156 | both language maps of the resolved course are patched; the counts add |
| ProfScoring.Round4 | old_python_code/scheduler/prof_scoring.py:73 | the rounded value is a whole number of ten-thousandths |
| ProfScoring.RoundHalfEven | old_python_code/scheduler/prof_scoring.py:73 | the chosen integer is within one half of the value, and at an exact tie it is the even one |
| ProfScoring.Round4IsNearest | old_python_code/scheduler/prof_scoring.py:73 | `round(x, 4)` is within 0.00005 of x |
| ProfScoring.Round4Exact | old_python_code/scheduler/prof_scoring.py:73 | a value with at most four decimals is unchanged by rounding |
| ProfScoring.Round4Idempotent | old_python_code/scheduler/prof_scoring.py:73 | rounding twice equals rounding once |
| ProfScoring.CalculateProfScore | old_python_code/scheduler/prof_scoring.py:39-73 | a score exists iff the data exists with all four required values; it is within 0.00005 of the raw formula |
| ProfScoring.ProfScoreFormula | old_python_code/scheduler/prof_scoring.py:65-73 | the score is round(rating - difficulty + 2 * overall grade - course average, 4) |
| ProfScoring.TotalRatingsIrrelevant | old_python_code/scheduler/prof_scoring.py:58-73 | the number of ratings does not affect the score |
| ProfScoring.ProfScoreExample | old_python_code/scheduler/prof_scoring.py:65-73 | rating 4, difficulty 2, overall grade 80 and course average 75 score 87 |
| ProfScoring.ScheduleScore | old_python_code/scheduler/prof_scoring.py:108-136 | a schedule score, when present, is within 0.00005 of the exact total of the option scores and has at most four decimals |
| ProfScoring.MissingProfsEmptyIff | old_python_code/scheduler/prof_scoring.py:124-132 | no instructor is recorded as missing iff every option's instructor has a score |
| ProfScoring.ScheduleScoreNoneIff | old_python_code/scheduler/prof_scoring.py:124-134 | a schedule has no score iff some option's instructor is absent from the map or has no score |
| ProfScoring.EmptyScheduleScoresZero | old_python_code/scheduler/prof_scoring.py:121-136 | the empty schedule scores 0.0 |
| ProfScoring.ScoredSumAppend | old_python_code/scheduler/prof_scoring.py:124-132 | totals and missing lists add over concatenation, so a repeated instructor counts every time |
| ProfScoring.ScheduleScoreSwap | old_python_code/scheduler/prof_scoring.py:121-136 | swapping two blocks of options, a + b against b + a, leaves the score unchanged (exact arithmetic) |
| ProfScoring.InsertOption | old_python_code/scheduler/prof_scoring.py:124-132 | inserting an option anywhere adds its score to the total and its instructor, if unscored, to the missing list |
| ProfScoring.PermutationKeepsTotals | old_python_code/scheduler/prof_scoring.py:121-132 | any reordering of the options keeps the exact total and the number of missing instructors |
| ProfScoring.ScheduleScorePermutation | old_python_code/scheduler/prof_scoring.py:121-136 | any reordering of the options leaves the score unchanged (exact arithmetic) |
| ProfScoring.CalculateScheduleScore | old_python_code/scheduler/prof_scoring.py:108-136 | the loop's result is the schedule score specified above |

## Left out

- Network and disk access is not modelled. This covers HTTP fetching of sections and professor data, the JSON caches with their five-minute validity check, configuration loading, argument parsing, printing, calendar rendering, JSON export, and the ranking sort in `main`. uogrades.py (grade scraping) is not part of this model.
- The clock read in `get_default_season`/`get_default_year` is replaced by month and year parameters.
- `count_languages` is left out: it tests `hasattr` on a dictionary, so it always returns (0, 0), and nothing calls it. The enumerator counts languages inline, and that inline count is modelled.
- The display-code swap in `print_schedule` is presentation only.
- `serialize_sections`/`deserialize_sections` (pydantic round-trips) are not modelled. Pydantic's literal validation is reflected by the enumerated datatypes for status, type and day.
- Floating point is replaced by exact reals. `round(x, 4)` is modelled as round-half-even on the exact value, while Python rounds the binary double. Scores are summed exactly rather than in double arithmetic.
- ProfScoring.ScheduleScorePermutation: holds of the exact sum. Python adds the scores as doubles in schedule order, and a different order can change the last bits of the total and so, rarely, the rounded score.
- Patches.Catalog.ApplyUnavailablePatches: requires that every patch label has a non-empty part before its first hyphen. It also requires that every patch course is either loaded or has a decimal digit at index 4. Where Python would raise `IndexError` or `ValueError` part way through the list, after earlier patches have already been applied, the model does not describe the partial state.
- Gatherer.LanguageEquivalent: requires an ASCII decimal digit at index 1 of the number. Python's `int()` raises on a short code or a non-digit, which the model does not describe. `int()` also accepts non-ASCII decimal digits, which the model does not.
- Gatherer.IsFrench: requires an ASCII decimal digit at index 1, for the same reason.
- Patches.SectionIdOf: requires a label whose part before the first hyphen is non-empty. `split('-')[0][0]` raises `IndexError` otherwise.
- Patches.EquivalentCourse: requires a course code with an ASCII digit at index 4. It is only evaluated for a code that is not loaded, and there Python raises on a short code or a non-digit.
- Patches.ResolveCourse: requires that the code is either loaded or has a digit at index 4, for the same reason.
- Aliasing is not modelled. The Python patcher mutates shared `Component` objects, and any other holder of those objects (for example a cached copy) would see the change. The model reassigns the course data held by `Catalog`.
- Python dictionaries have unique keys. The model's key/value sequences need not: lookups and updates use the first entry with the key, and iteration visits every entry.
- Printing inside `apply_unavailable_patches` and `generate_all_schedules`, and the combination counters that only feed those messages, are not modelled.
- Only the scoring in prof_scoring.py is modelled: all four values are required, the score is rating - difficulty + 2 * overall grade - course average, and a schedule with any unscored instructor has no score. No weighting of separate rating and grade signals and no scaling by the share of scored options is modelled, because prof_scoring.py has neither.
