/**
 * The schedule enumerator. Every section of both languages of each course is
 * expanded into its options, each tagged with its language and course code.
 * The cross product of the courses' option lists is then filtered, in this
 * order: language quotas (-1 means unlimited), weekends, number of distinct
 * days, and pairwise time conflicts. The combinations that pass every filter
 * are the schedules, in product order.
 */
module Enumerator {
  import opened Wrappers
  import opened Dicts
  import opened Seqs
  import opened Models
  import opened SectionOptions
  import opened TimeSlots

  /** The user's constraints; `maxDays` is `None` when not set. */
  datatype Constraints = Constraints(maxEnglish: int, maxFrench: int, noWeekends: bool, maxDays: Option<int>)

  function TagOption(o: SectionOption, lang: Language, code: string): ScheduleOption {
    ScheduleOption(o.section, o.components, lang, code)
  }

  /** The option generator as a function value. */
  function OptionsOfSection(): Section -> seq<SectionOption> {
    (s: Section) => SectionOptions.SectionOptions(s)
  }

  /** The options of a list of sections, section by section. */
  function OptionsOfSections(sections: seq<Section>): seq<SectionOption> {
    FlatMap(sections, OptionsOfSection())
  }

  lemma OptionsOfSectionsSnoc(sections: seq<Section>, s: nat)
    requires s < |sections|
    ensures OptionsOfSections(sections[..s + 1]) == OptionsOfSections(sections[..s]) + SectionOptions.SectionOptions(sections[s])
  {
    assert sections[..s + 1] == sections[..s] + [sections[s]];
    FlatMapSnoc(sections[..s], sections[s], OptionsOfSection());
  }

  function Tag(opts: seq<SectionOption>, lang: Language, code: string): (r: seq<ScheduleOption>)
    ensures |r| == |opts| && forall i :: 0 <= i < |opts| ==> r[i] == TagOption(opts[i], lang, code)
  {
    seq(|opts|, i requires 0 <= i < |opts| => TagOption(opts[i], lang, code))
  }

  lemma TagAppend(a: seq<SectionOption>, b: seq<SectionOption>, lang: Language, code: string)
    ensures Tag(a + b, lang, code) == Tag(a, lang, code) + Tag(b, lang, code)
  {
  }

  /** The candidate options of one course: its English options, then its French ones. */
  function CourseOptions(code: string, cs: CourseSections): seq<ScheduleOption> {
    Tag(OptionsOfSections(Values(cs.english)), English, code)
      + Tag(OptionsOfSections(Values(cs.french)), French, code)
  }

  /** A tagged option carries the tag and comes from one of the sections. */
  lemma TaggedOrigin(sections: seq<Section>, lang: Language, code: string, o: ScheduleOption)
    requires o in Tag(OptionsOfSections(sections), lang, code)
    ensures o.courseCode == code && o.language == lang
    ensures exists s :: s in sections && SectionOption(o.section, o.components) in SectionOptions.SectionOptions(s)
  {
    var opts := OptionsOfSections(sections);
    var i :| 0 <= i < |opts| && Tag(opts, lang, code)[i] == o;
    assert opts[i] == SectionOption(o.section, o.components);
    FlatMapMembership(sections, OptionsOfSection(), opts[i]);
  }

  /** The option is an option of one of the course's sections in its tagged language. */
  predicate DrawnFrom(cs: CourseSections, o: ScheduleOption) {
    exists s :: s in Values(SectionsIn(cs, o.language))
           && SectionOption(o.section, o.components) in SectionOptions.SectionOptions(s)
  }

  /** A candidate of a course carries its code and is an option of one of its sections in the tagged language. */
  lemma CourseOptionOrigin(code: string, cs: CourseSections, o: ScheduleOption)
    requires o in CourseOptions(code, cs)
    ensures o.courseCode == code
    ensures DrawnFrom(cs, o)
  {
    if o in Tag(OptionsOfSections(Values(cs.english)), English, code) {
      TaggedOrigin(Values(cs.english), English, code, o);
    } else {
      TaggedOrigin(Values(cs.french), French, code, o);
    }
  }

  /** One candidate list per course, in course order. */
  function CandidateLists(courses: CourseMap): (r: seq<seq<ScheduleOption>>)
    ensures |r| == |courses|
    decreases |courses|
  {
    if |courses| == 0 then []
    else
      var (code, cs) := courses[|courses| - 1];
      CandidateLists(courses[..|courses| - 1]) + [CourseOptions(code, cs)]
  }

  lemma {:induction false} CandidateListsIndex(courses: CourseMap, i: nat)
    requires i < |courses|
    ensures CandidateLists(courses)[i] == CourseOptions(courses[i].0, courses[i].1)
    decreases |courses|
  {
    if i < |courses| - 1 {
      var front := courses[..|courses| - 1];
      CandidateListsIndex(front, i);
    }
  }

  /** The test `opt['language'] == lang`. */
  function InLanguage(lang: Language): ScheduleOption -> bool {
    (o: ScheduleOption) => o.language == lang
  }

  /** `sum(1 for opt in combo if opt['language'] == lang)`. */
  function CountLanguage(combo: Schedule, lang: Language): nat {
    |Filter(combo, InLanguage(lang))|
  }

  /** A quota is met when it is unlimited (-1) or not exceeded. */
  predicate WithinLimit(limit: int, count: nat) {
    limit == -1 || count <= limit
  }

  /** Every component of the combination, option by option. */
  function AllComponents(combo: Schedule): seq<Component>
    decreases |combo|
  {
    if |combo| == 0 then [] else AllComponents(combo[..|combo| - 1]) + combo[|combo| - 1].components
  }

  lemma {:induction false} AllComponentsMembership(combo: Schedule, c: Component)
    ensures c in AllComponents(combo) <==> exists i :: 0 <= i < |combo| && c in combo[i].components
    decreases |combo|
  {
    if |combo| > 0 {
      var front := combo[..|combo| - 1];
      AllComponentsMembership(front, c);
      if exists i :: 0 <= i < |combo| && c in combo[i].components {
        var i :| 0 <= i < |combo| && c in combo[i].components;
        if i < |combo| - 1 {
          assert front[i] == combo[i];
        }
      }
    }
  }

  predicate IsWeekend(d: Day) {
    d == Sa || d == Su
  }

  /** Some component of the combination meets on Saturday or Sunday. */
  predicate HasWeekend(combo: Schedule) {
    exists c :: c in AllComponents(combo) && IsWeekend(c.day)
  }

  /** The weekdays the combination meets on. */
  function DaysUsed(combo: Schedule): set<Day> {
    set c | c in AllComponents(combo) :: c.day
  }

  /** The slots of a list of components, in order. */
  function TimeTuples(cs: seq<Component>): (r: seq<TimeTuple>)
    ensures |r| == |cs| && forall i :: 0 <= i < |cs| ==> r[i] == ComponentToTimeTuple(cs[i])
  {
    seq(|cs|, i requires 0 <= i < |cs| => ComponentToTimeTuple(cs[i]))
  }

  /** The combination passes the four filters. */
  predicate Passes(k: Constraints, combo: Schedule) {
    && WithinLimit(k.maxEnglish, CountLanguage(combo, English))
    && WithinLimit(k.maxFrench, CountLanguage(combo, French))
    && !(k.noWeekends && HasWeekend(combo))
    && !(k.maxDays.Some? && |DaysUsed(combo)| > k.maxDays.value)
    && !AnyConflict(TimeTuples(AllComponents(combo)))
  }

  function Accepts(k: Constraints): Schedule -> bool {
    (combo: Schedule) => Passes(k, combo)
  }

  /** The schedules the enumerator returns: the product of the candidate lists, filtered. */
  function ValidSchedules(courses: CourseMap, k: Constraints): seq<Schedule> {
    Filter(CrossProduct(CandidateLists(courses)), Accepts(k))
  }

  /** One candidate of course `i` at position `i`, for every course. */
  predicate OnePerCourse(courses: CourseMap, combo: Schedule) {
    |combo| == |courses| && forall i :: 0 <= i < |courses| ==> combo[i] in CourseOptions(courses[i].0, courses[i].1)
  }

  /**
   * Soundness and completeness: a schedule is returned exactly when it takes
   * one candidate per course and passes every filter.
   */
  lemma ValidScheduleMembership(courses: CourseMap, k: Constraints, combo: Schedule)
    ensures combo in ValidSchedules(courses, k) <==> OnePerCourse(courses, combo) && Passes(k, combo)
  {
    CrossProductMembership(CandidateLists(courses), combo);
    forall i | 0 <= i < |courses|
      ensures CandidateLists(courses)[i] == CourseOptions(courses[i].0, courses[i].1)
    {
      CandidateListsIndex(courses, i);
    }
  }

  /**
   * Every returned schedule has one option per course, in course order,
   * carrying that course's code and coming from one of the course's sections
   * in the language it is tagged with.
   */
  lemma ScheduleOrigin(courses: CourseMap, k: Constraints, combo: Schedule)
    requires combo in ValidSchedules(courses, k)
    ensures |combo| == |courses|
    ensures forall i :: 0 <= i < |combo| ==> combo[i].courseCode == courses[i].0
    ensures forall i :: 0 <= i < |combo| ==> DrawnFrom(courses[i].1, combo[i])
  {
    assert OnePerCourse(courses, combo) by {
      ValidScheduleMembership(courses, k, combo);
    }
    forall i | 0 <= i < |combo|
      ensures combo[i].courseCode == courses[i].0
      ensures DrawnFrom(courses[i].1, combo[i])
    {
      CourseOptionOrigin(courses[i].0, courses[i].1, combo[i]);
    }
  }

  /**
   * Every returned schedule respects every quota that is not -1, has no
   * weekend meeting when weekends are excluded, meets on at most `maxDays`
   * days when that is set, and has no two components whose slots conflict.
   */
  lemma ScheduleRespectsConstraints(courses: CourseMap, k: Constraints, combo: Schedule)
    requires combo in ValidSchedules(courses, k)
    ensures k.maxEnglish != -1 ==> CountLanguage(combo, English) <= k.maxEnglish
    ensures k.maxFrench != -1 ==> CountLanguage(combo, French) <= k.maxFrench
    ensures k.noWeekends ==> forall c :: c in AllComponents(combo) ==> c.day != Sa && c.day != Su
    ensures k.maxDays.Some? ==> |DaysUsed(combo)| <= k.maxDays.value
    ensures var cs := AllComponents(combo);
            forall a, b :: 0 <= a < b < |cs| ==> !TimesConflict(ComponentToTimeTuple(cs[a]), ComponentToTimeTuple(cs[b]))
  {
    ValidScheduleMembership(courses, k, combo);
    var cs := AllComponents(combo);
    forall a, b | 0 <= a < b < |cs|
      ensures !TimesConflict(ComponentToTimeTuple(cs[a]), ComponentToTimeTuple(cs[b]))
    {
      var times := TimeTuples(cs);
      assert times[a] == ComponentToTimeTuple(cs[a]) && times[b] == ComponentToTimeTuple(cs[b]);
    }
  }

  /** A quota at least as loose: unlimited, or a higher limit than a limited one. */
  predicate LimitAtLeastAsLoose(loose: int, strict: int) {
    loose == -1 || (strict != -1 && strict <= loose)
  }

  /** Every constraint of `loose` is implied by the same constraint of `strict`. */
  predicate AtLeastAsLoose(loose: Constraints, strict: Constraints) {
    && LimitAtLeastAsLoose(loose.maxEnglish, strict.maxEnglish)
    && LimitAtLeastAsLoose(loose.maxFrench, strict.maxFrench)
    && (loose.noWeekends ==> strict.noWeekends)
    && (loose.maxDays.Some? ==> strict.maxDays.Some? && strict.maxDays.value <= loose.maxDays.value)
  }

  /** Relaxing any constraint on the same data can only add schedules. */
  lemma RelaxingConstraintsGivesSuperset(courses: CourseMap, strict: Constraints, loose: Constraints, combo: Schedule)
    requires AtLeastAsLoose(loose, strict)
    requires combo in ValidSchedules(courses, strict)
    ensures combo in ValidSchedules(courses, loose)
  {
    ValidScheduleMembership(courses, strict, combo);
    ValidScheduleMembership(courses, loose, combo);
  }

  /**
   * With no course, the product has exactly one, empty, combination, and it
   * is kept as long as no quota or day limit is below zero.
   */
  lemma NoCoursesYieldsOneEmptySchedule(k: Constraints)
    requires k.maxEnglish >= -1 && k.maxFrench >= -1
    requires k.maxDays.Some? ==> k.maxDays.value >= 0
    ensures ValidSchedules([], k) == [[]]
  {
    var empty: Schedule := [];
    assert CandidateLists([]) == [];
    assert CrossProduct(CandidateLists([])) == [empty];
    assert AllComponents(empty) == [];
    assert DaysUsed(empty) == {};
    assert !AnyConflict(TimeTuples([]));
    assert Passes(k, empty);
    assert [empty] == [] + [empty];
    FilterSnoc([], empty, Accepts(k));
  }

  /** A combination meets on at most seven distinct days. */
  lemma DaysUsedAtMostSeven(combo: Schedule)
    ensures |DaysUsed(combo)| <= 7
  {
    var week := {Mo, Tu, We, Th, Fr, Sa, Su};
    forall d | d in DaysUsed(combo) ensures d in week {
      match d
      case Mo => case Tu => case We => case Th => case Fr => case Sa => case Su =>
    }
    assert |week| == 7;
    SubsetCardinality(DaysUsed(combo), week);
  }

  /** A day limit of 7 or more never rejects: it filters exactly as no limit does. */
  lemma DayLimitOfSevenNeverRejects(k: Constraints, combo: Schedule)
    requires k.maxDays.Some? && k.maxDays.value >= 7
    ensures Passes(k, combo) <==> Passes(k.(maxDays := None), combo)
  {
    DaysUsedAtMostSeven(combo);
  }

  lemma SubsetCardinality(a: set<Day>, b: set<Day>)
    requires a <= b
    ensures |a| <= |b|
  {
    assert b == a + (b - a);
  }

  /** `has_weekend_classes`: scans the components, returning at the first Saturday or Sunday. */
  method HasWeekendClasses(combo: Schedule) returns (weekend: bool)
    ensures weekend == HasWeekend(combo)
  {
    for i := 0 to |combo|
      invariant forall c :: c in AllComponents(combo[..i]) ==> !IsWeekend(c.day)
    {
      var components := combo[i].components;
      for j := 0 to |components|
        invariant forall c :: c in components[..j] ==> !IsWeekend(c.day)
      {
        if components[j].day == Sa || components[j].day == Su {
          AllComponentsMembership(combo, components[j]);
          return true;
        }
      }
      assert components[..|components|] == components;
      assert combo[..i + 1][..i] == combo[..i];
    }
    assert combo[..|combo|] == combo;
    return false;
  }

  /** `count_unique_days`: the size of the set of days of every component. */
  method CountUniqueDays(combo: Schedule) returns (count: nat)
    ensures count == |DaysUsed(combo)|
  {
    var daysWithClasses: set<Day> := {};
    for i := 0 to |combo|
      invariant daysWithClasses == DaysUsed(combo[..i])
    {
      var components := combo[i].components;
      for j := 0 to |components|
        invariant daysWithClasses == DaysUsed(combo[..i]) + set c | c in components[..j] :: c.day
      {
        assert components[..j + 1] == components[..j] + [components[j]];
        daysWithClasses := daysWithClasses + {components[j].day};
      }
      assert components[..|components|] == components;
      assert combo[..i + 1][..i] == combo[..i];
      assert AllComponents(combo[..i + 1]) == AllComponents(combo[..i]) + components;
    }
    assert combo[..|combo|] == combo;
    count := |daysWithClasses|;
  }

  /** The slot list of a combination, option by option and component by component. */
  method ScheduleTimes(combo: Schedule) returns (allTimes: seq<TimeTuple>)
    ensures allTimes == TimeTuples(AllComponents(combo))
  {
    allTimes := [];
    for i := 0 to |combo|
      invariant allTimes == TimeTuples(AllComponents(combo[..i]))
    {
      var components := combo[i].components;
      for j := 0 to |components|
        invariant allTimes == TimeTuples(AllComponents(combo[..i]) + components[..j])
      {
        assert AllComponents(combo[..i]) + components[..j + 1] == AllComponents(combo[..i]) + components[..j] + [components[j]];
        allTimes := allTimes + [ComponentToTimeTuple(components[j])];
      }
      assert components[..|components|] == components;
      assert combo[..i + 1][..i] == combo[..i];
    }
    assert combo[..|combo|] == combo;
  }

  /** Appends each option of one section, tagged, to the running list. */
  method AppendTagged(choices: seq<ScheduleOption>, sectionOpts: seq<SectionOption>, lang: Language, code: string)
      returns (extended: seq<ScheduleOption>)
    ensures extended == choices + Tag(sectionOpts, lang, code)
  {
    extended := choices;
    for o := 0 to |sectionOpts|
      invariant extended == choices + Tag(sectionOpts[..o], lang, code)
    {
      assert sectionOpts[..o + 1] == sectionOpts[..o] + [sectionOpts[o]];
      TagAppend(sectionOpts[..o], [sectionOpts[o]], lang, code);
      extended := extended + [TagOption(sectionOpts[o], lang, code)];
    }
    assert sectionOpts[..|sectionOpts|] == sectionOpts;
  }

  /** Generates the options of each section in turn and tags each with its language and course code. */
  method TagSectionOptions(sections: seq<Section>, lang: Language, code: string) returns (choices: seq<ScheduleOption>)
    ensures choices == Tag(OptionsOfSections(sections), lang, code)
  {
    choices := [];
    for s := 0 to |sections|
      invariant choices == Tag(OptionsOfSections(sections[..s]), lang, code)
    {
      var sectionOpts := GenerateSectionOptions(sections[s]);
      OptionsOfSectionsSnoc(sections, s);
      TagAppend(OptionsOfSections(sections[..s]), sectionOpts, lang, code);
      choices := AppendTagged(choices, sectionOpts, lang, code);
    }
    assert sections[..|sections|] == sections;
  }

  /** The candidate options of every course, in course order. */
  method GatherCandidates(coursesData: CourseMap) returns (allCourseOptions: seq<seq<ScheduleOption>>)
    ensures allCourseOptions == CandidateLists(coursesData)
  {
    allCourseOptions := [];
    for i := 0 to |coursesData|
      invariant allCourseOptions == CandidateLists(coursesData[..i])
    {
      var courseCode := coursesData[i].0;
      var langSections := coursesData[i].1;
      var english := TagSectionOptions(Values(langSections.english), English, courseCode);
      var french := TagSectionOptions(Values(langSections.french), French, courseCode);
      assert CandidateLists(coursesData[..i + 1]) == CandidateLists(coursesData[..i]) + [CourseOptions(courseCode, langSections)] by {
        assert coursesData[..i + 1][..i] == coursesData[..i];
      }
      allCourseOptions := allCourseOptions + [english + french];
    }
    assert coursesData[..|coursesData|] == coursesData;
  }

  /** The filters applied to one combination, in the order the enumerator applies them. */
  method KeepCombination(combo: Schedule, maxEnglish: int, maxFrench: int, noWeekends: bool, maxDays: Option<int>)
      returns (keep: bool)
    ensures keep == Passes(Constraints(maxEnglish, maxFrench, noWeekends, maxDays), combo)
  {
    var englishCount := CountLanguage(combo, English);
    var frenchCount := CountLanguage(combo, French);
    if maxEnglish != -1 && englishCount > maxEnglish {
      return false;
    }
    if maxFrench != -1 && frenchCount > maxFrench {
      return false;
    }
    if noWeekends {
      var weekend := HasWeekendClasses(combo);
      if weekend {
        return false;
      }
    }
    if maxDays.Some? {
      var days := CountUniqueDays(combo);
      if days > maxDays.value {
        return false;
      }
    }
    var allTimes := ScheduleTimes(combo);
    var conflict := HasConflict(allTimes);
    return !conflict;
  }

  /** Keeps, in order, the combinations that pass every filter. */
  method FilterCombinations(combos: seq<Schedule>, maxEnglish: int, maxFrench: int, noWeekends: bool, maxDays: Option<int>)
      returns (validSchedules: seq<Schedule>)
    ensures validSchedules == Filter(combos, Accepts(Constraints(maxEnglish, maxFrench, noWeekends, maxDays)))
  {
    ghost var k := Constraints(maxEnglish, maxFrench, noWeekends, maxDays);
    validSchedules := [];
    for n := 0 to |combos|
      invariant validSchedules == Filter(combos[..n], Accepts(k))
    {
      var combo := combos[n];
      FilterPrefixSnoc(combos, n, Accepts(k));
      var keep := KeepCombination(combo, maxEnglish, maxFrench, noWeekends, maxDays);
      if keep {
        validSchedules := validSchedules + [combo];
      }
    }
    assert combos[..|combos|] == combos;
  }

  /**
   * `generate_all_schedules`: the combinations of one option per course, in
   * product order, that pass every filter.
   */
  method GenerateAllSchedules(coursesData: CourseMap, maxEnglish: int, maxFrench: int, noWeekends: bool, maxDays: Option<int>)
      returns (validSchedules: seq<Schedule>)
    ensures validSchedules == ValidSchedules(coursesData, Constraints(maxEnglish, maxFrench, noWeekends, maxDays))
  {
    var allCourseOptions := GatherCandidates(coursesData);
    var combos := CrossProduct(allCourseOptions);
    validSchedules := FilterCombinations(combos, maxEnglish, maxFrench, noWeekends, maxDays);
  }
}
