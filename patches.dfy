/**
 * Unavailable-component patches. A patch names a course and a component
 * label such as "B01-LAB". The course is resolved to the code itself when it
 * is loaded, else to its language equivalent when that is loaded; an
 * unresolved patch is skipped. In the section named by the label's first
 * character, in both language maps, every component carrying the label is
 * marked CLOSED, and every such component is counted.
 */
module Patches {
  import opened Wrappers
  import opened Seqs
  import opened Dicts
  import opened Models
  import opened Gatherer
  import opened SectionOptions

  /** One entry of the configured list of unavailable components. */
  datatype Patch = Patch(course: string, component: string)

  /** `s.split('-')[0]`: the longest prefix of `s` without a hyphen. */
  function BeforeHyphen(s: string): (r: string)
    ensures r <= s && '-' !in r
    ensures |r| < |s| ==> s[|r|] == '-'
    decreases |s|
  {
    if |s| == 0 || s[0] == '-' then "" else [s[0]] + BeforeHyphen(s[1..])
  }

  /** `label.split('-')[0][0]` is defined: the text before the first hyphen is not empty. */
  predicate HasSectionId(compLabel: string) {
    |BeforeHyphen(compLabel)| > 0
  }

  /** The section a component label belongs to: the first character before the hyphen. */
  function SectionIdOf(compLabel: string): (id: string)
    requires HasSectionId(compLabel)
    ensures id == compLabel[..1]
  {
    BeforeHyphen(compLabel)[..1]
  }

  /** A label names a section exactly when it is non-empty and does not start with a hyphen. */
  lemma SectionIdDefinedness(compLabel: string)
    ensures HasSectionId(compLabel) <==> |compLabel| > 0 && compLabel[0] != '-'
  {
    if |compLabel| > 0 && compLabel[0] != '-' {
      assert BeforeHyphen(compLabel) == [compLabel[0]] + BeforeHyphen(compLabel[1..]);
    }
  }

  /** `parse_course_code`: the first three characters are the subject, the rest is the number. */
  function ParseCourseCode(courseCode: string): (r: (string, string))
    ensures r.0 + r.1 == courseCode
    ensures |r.0| == if |courseCode| < 3 then |courseCode| else 3
  {
    if |courseCode| < 3 then (courseCode, "") else (courseCode[..3], courseCode[3..])
  }

  /** The number part of the code has a level digit, so its language equivalent is defined. */
  predicate HasEquivalent(courseCode: string) {
    HasLevelDigit(ParseCourseCode(courseCode).1)
  }

  /** `subject + language_equivalent(code)`. */
  function EquivalentCourse(courseCode: string): (r: string)
    requires HasEquivalent(courseCode)
    ensures |r| == |courseCode| && HasEquivalent(r)
    ensures forall i :: 0 <= i < |courseCode| && i != 4 ==> r[i] == courseCode[i]
    ensures DigitValue(r[4]) == if DigitValue(courseCode[4]) >= 5
                                then DigitValue(courseCode[4]) - 4
                                else DigitValue(courseCode[4]) + 4
  {
    var (subject, code) := ParseCourseCode(courseCode);
    var r := subject + LanguageEquivalent(code);
    assert ParseCourseCode(r).1 == LanguageEquivalent(code);
    assert code[1] == courseCode[4] && r[4] == LanguageEquivalent(code)[1];
    r
  }

  /** For level digits 1 to 8, the equivalent of the equivalent course is the course itself. */
  lemma EquivalentCourseInvolution(courseCode: string)
    requires HasEquivalent(courseCode) && 1 <= DigitValue(courseCode[4]) <= 8
    ensures EquivalentCourse(courseCode) != courseCode
    ensures EquivalentCourse(EquivalentCourse(courseCode)) == courseCode
  {
    var (subject, code) := ParseCourseCode(courseCode);
    assert code[1] == courseCode[4];
    LanguageEquivalentInvolution(code);
    var once := EquivalentCourse(courseCode);
    assert ParseCourseCode(once) == (subject, LanguageEquivalent(code));
    assert once[4] != courseCode[4];
  }

  /** Resolving the course cannot raise: the code is loaded, or its number has a level digit. */
  predicate Resolvable(data: CourseMap, courseCode: string) {
    HasKey(data, courseCode) || HasEquivalent(courseCode)
  }

  /** The loaded course a patch applies to, if any. */
  function ResolveCourse(data: CourseMap, courseCode: string): (r: Option<string>)
    requires Resolvable(data, courseCode)
    ensures r.Some? ==> HasKey(data, r.value)
    ensures HasKey(data, courseCode) ==> r == Some(courseCode)
    ensures !HasKey(data, courseCode) ==> (r.None? <==> !HasKey(data, EquivalentCourse(courseCode)))
    ensures r.Some? && r.value != courseCode ==> r.value == EquivalentCourse(courseCode)
  {
    if HasKey(data, courseCode) then Some(courseCode)
    else if HasKey(data, EquivalentCourse(courseCode)) then Some(EquivalentCourse(courseCode))
    else None
  }

  /** One component entry after the patch: closed when it carries the label. */
  function CloseIfLabelled(entry: (string, Component), compLabel: string): (string, Component) {
    if entry.1.displayLabel == compLabel then (entry.0, entry.1.(status := Closed)) else entry
  }

  /** The components of a section with every one carrying `label` marked CLOSED. */
  function CloseMatching(comps: Dict<Component>, compLabel: string): (r: Dict<Component>)
    ensures |r| == |comps|
    decreases |comps|
  {
    if |comps| == 0 then []
    else CloseMatching(comps[..|comps| - 1], compLabel) + [CloseIfLabelled(comps[|comps| - 1], compLabel)]
  }

  /** How many components carry `label`, whatever their status. */
  function CountMatching(comps: Dict<Component>, compLabel: string): nat
    decreases |comps|
  {
    if |comps| == 0 then 0
    else CountMatching(comps[..|comps| - 1], compLabel) + (if comps[|comps| - 1].1.displayLabel == compLabel then 1 else 0)
  }

  /** Entry by entry, closing applies `CloseIfLabelled`. */
  lemma {:induction false} CloseMatchingPointwise(comps: Dict<Component>, compLabel: string)
    ensures forall m :: 0 <= m < |comps| ==> CloseMatching(comps, compLabel)[m] == CloseIfLabelled(comps[m], compLabel)
    decreases |comps|
  {
    if |comps| > 0 {
      CloseMatchingPointwise(comps[..|comps| - 1], compLabel);
    }
  }

  /**
   * Closing changes nothing but the status of the components that carry the
   * label: keys, order and every other field stay, and those components are
   * now CLOSED.
   */
  lemma CloseMatchingEffect(comps: Dict<Component>, compLabel: string)
    ensures var r := CloseMatching(comps, compLabel);
            |r| == |comps| && Keys(r) == Keys(comps)
            && forall m :: 0 <= m < |comps| ==>
                 r[m].1 == (if comps[m].1.displayLabel == compLabel then comps[m].1.(status := Closed) else comps[m].1)
  {
    CloseMatchingPointwise(comps, compLabel);
    var r := CloseMatching(comps, compLabel);
    assert Keys(r) == Keys(comps);
  }

  /** The count depends on the labels only. */
  lemma {:induction false} CountMatchingSameLabels(a: Dict<Component>, b: Dict<Component>, compLabel: string)
    requires |a| == |b| && forall m :: 0 <= m < |a| ==> a[m].1.displayLabel == b[m].1.displayLabel
    ensures CountMatching(a, compLabel) == CountMatching(b, compLabel)
    decreases |a|
  {
    if |a| > 0 {
      CountMatchingSameLabels(a[..|a| - 1], b[..|b| - 1], compLabel);
    }
  }

  /** The test `comp.label == label` on a dictionary entry. */
  function CarriesLabel(compLabel: string): ((string, Component)) -> bool {
    (e: (string, Component)) => e.1.displayLabel == compLabel
  }

  /** The count is the number of entries whose component carries the label. */
  lemma {:induction false} CountMatchingIsFilterLength(comps: Dict<Component>, compLabel: string)
    ensures CountMatching(comps, compLabel) == |Filter(comps, CarriesLabel(compLabel))|
    decreases |comps|
  {
    if |comps| > 0 {
      CountMatchingIsFilterLength(comps[..|comps| - 1], compLabel);
    }
  }

  /** Closing twice is closing once, and the labels, hence the count, are kept. */
  lemma CloseMatchingIdempotent(comps: Dict<Component>, compLabel: string)
    ensures CloseMatching(CloseMatching(comps, compLabel), compLabel) == CloseMatching(comps, compLabel)
    ensures CountMatching(CloseMatching(comps, compLabel), compLabel) == CountMatching(comps, compLabel)
  {
    var once := CloseMatching(comps, compLabel);
    CloseMatchingPointwise(comps, compLabel);
    CloseMatchingPointwise(once, compLabel);
    assert CloseMatching(once, compLabel) == once;
    CountMatchingSameLabels(once, comps, compLabel);
  }

  /** The patch applied to one language map: the named section, when present, has its labelled components closed. */
  function PatchedLanguage(sections: Dict<Section>, sectionId: string, compLabel: string): Dict<Section> {
    match Get(sections, sectionId)
    case None => sections
    case Some(s) => Put(sections, sectionId, s.(components := CloseMatching(s.components, compLabel)))
  }

  /** How many components the patch closes in one language map. */
  function LanguageCount(sections: Dict<Section>, sectionId: string, compLabel: string): nat {
    match Get(sections, sectionId)
    case None => 0
    case Some(s) => CountMatching(s.components, compLabel)
  }

  /** The patch applied to a loaded course: both of its language maps. */
  function PatchedCourse(data: CourseMap, target: string, sectionId: string, compLabel: string): CourseMap
    requires HasKey(data, target)
  {
    var cs := Get(data, target).value;
    Put(data, target, CourseSections(PatchedLanguage(cs.english, sectionId, compLabel),
                                     PatchedLanguage(cs.french, sectionId, compLabel)))
  }

  /** How many components the patch closes in a loaded course, both language maps together. */
  function CourseCount(data: CourseMap, target: string, sectionId: string, compLabel: string): nat
    requires HasKey(data, target)
  {
    var cs := Get(data, target).value;
    LanguageCount(cs.english, sectionId, compLabel) + LanguageCount(cs.french, sectionId, compLabel)
  }

  /** A patch applies when its label names a section and its course resolves without raising. */
  predicate PatchApplies(data: CourseMap, p: Patch) {
    HasSectionId(p.component) && Resolvable(data, p.course)
  }

  /** The data after one patch: unchanged when its course does not resolve. */
  function PatchedData(data: CourseMap, p: Patch): (r: CourseMap)
    requires PatchApplies(data, p)
    ensures Keys(r) == Keys(data)
  {
    match ResolveCourse(data, p.course)
    case None => data
    case Some(target) => PatchedCourse(data, target, SectionIdOf(p.component), p.component)
  }

  /** The count of one patch: 0 when its course does not resolve. */
  function PatchCount(data: CourseMap, p: Patch): nat
    requires PatchApplies(data, p)
  {
    match ResolveCourse(data, p.course)
    case None => 0
    case Some(target) => CourseCount(data, target, SectionIdOf(p.component), p.component)
  }

  /** Every patch names a section and has a course that resolves without raising. */
  predicate Applicable(data: CourseMap, patches: seq<Patch>) {
    forall i :: 0 <= i < |patches| ==>
      HasSectionId(patches[i].component) && (patches[i].course in Keys(data) || HasEquivalent(patches[i].course))
  }

  /** Whether a patch applies depends on the loaded course codes only. */
  lemma ApplicableSameKeys(data: CourseMap, other: CourseMap, patches: seq<Patch>, i: nat)
    requires Applicable(data, patches) && Keys(other) == Keys(data) && i < |patches|
    ensures PatchApplies(other, patches[i])
  {
    HasKeyInKeys(other, patches[i].course);
  }

  /** The data after the patches, applied in order. */
  function AfterPatches(data: CourseMap, patches: seq<Patch>): (r: CourseMap)
    requires Applicable(data, patches)
    ensures Keys(r) == Keys(data)
    decreases |patches|
  {
    if |patches| == 0 then data
    else
      var front := patches[..|patches| - 1];
      assert Applicable(data, front);
      var mid := AfterPatches(data, front);
      ApplicableSameKeys(data, mid, patches, |patches| - 1);
      PatchedData(mid, patches[|patches| - 1])
  }

  /** The counts of the patches, applied in order, summed. */
  function TotalCount(data: CourseMap, patches: seq<Patch>): nat
    requires Applicable(data, patches)
    decreases |patches|
  {
    if |patches| == 0 then 0
    else
      var front := patches[..|patches| - 1];
      assert Applicable(data, front);
      var mid := AfterPatches(data, front);
      ApplicableSameKeys(data, mid, patches, |patches| - 1);
      TotalCount(data, front) + PatchCount(mid, patches[|patches| - 1])
  }

  /** One more patch: it applies to the data the earlier ones left, and its count is added. */
  lemma PatchesSnoc(data: CourseMap, patches: seq<Patch>, i: nat)
    requires Applicable(data, patches) && i < |patches|
    ensures Applicable(data, patches[..i]) && Applicable(data, patches[..i + 1])
    ensures PatchApplies(AfterPatches(data, patches[..i]), patches[i])
    ensures AfterPatches(data, patches[..i + 1]) == PatchedData(AfterPatches(data, patches[..i]), patches[i])
    ensures TotalCount(data, patches[..i + 1]) == TotalCount(data, patches[..i]) + PatchCount(AfterPatches(data, patches[..i]), patches[i])
  {
    assert patches[..i + 1][..i] == patches[..i];
    ApplicableSameKeys(data, AfterPatches(data, patches[..i]), patches, i);
  }

  /**
   * The exact effect of one patch. An unresolved patch changes nothing and
   * counts 0. Otherwise only the resolved course's entry changes: each of its
   * language maps has the labelled components of the named section closed,
   * and the count is the number of components carrying the label in that
   * section of both maps.
   */
  lemma PatchEffect(data: CourseMap, p: Patch)
    requires PatchApplies(data, p)
    ensures ResolveCourse(data, p.course).None? ==> PatchedData(data, p) == data && PatchCount(data, p) == 0
    ensures ResolveCourse(data, p.course).Some? ==>
              var target := ResolveCourse(data, p.course).value;
              var ti := IndexOf(data, target).value;
              var r := PatchedData(data, p);
              var cs := Get(data, target).value;
              var id := SectionIdOf(p.component);
              && |r| == |data|
              && (forall i :: 0 <= i < |data| && i != ti ==> r[i] == data[i])
              && r[ti] == (target, CourseSections(PatchedLanguage(cs.english, id, p.component),
                                                 PatchedLanguage(cs.french, id, p.component)))
              && PatchCount(data, p) == MatchesIn(cs.english, id, p.component) + MatchesIn(cs.french, id, p.component)
  {
    if ResolveCourse(data, p.course).Some? {
      var target := ResolveCourse(data, p.course).value;
      var cs := Get(data, target).value;
      var id := SectionIdOf(p.component);
      LanguageCountIsMatches(cs.english, id, p.component);
      LanguageCountIsMatches(cs.french, id, p.component);
    }
  }

  /** The number of components of the named section of a language map that carry the label (0 when absent). */
  function MatchesIn(sections: Dict<Section>, sectionId: string, compLabel: string): nat {
    if HasKey(sections, sectionId)
    then |Filter(Get(sections, sectionId).value.components, CarriesLabel(compLabel))|
    else 0
  }

  lemma LanguageCountIsMatches(sections: Dict<Section>, sectionId: string, compLabel: string)
    ensures LanguageCount(sections, sectionId, compLabel) == MatchesIn(sections, sectionId, compLabel)
  {
    if HasKey(sections, sectionId) {
      CountMatchingIsFilterLength(Get(sections, sectionId).value.components, compLabel);
    }
  }

  /**
   * Within a language map, only the named section changes, and only in its
   * components: its id, label, instructor, description and component count stay.
   */
  lemma PatchedLanguageEffect(sections: Dict<Section>, sectionId: string, compLabel: string)
    ensures var r := PatchedLanguage(sections, sectionId, compLabel);
            && Keys(r) == Keys(sections)
            && (!HasKey(sections, sectionId) ==> r == sections)
            && (HasKey(sections, sectionId) ==>
                  var si := IndexOf(sections, sectionId).value;
                  && (forall j :: 0 <= j < |sections| && j != si ==> r[j] == sections[j])
                  && r[si].1 == sections[si].1.(components := CloseMatching(sections[si].1.components, compLabel)))
  {
    if HasKey(sections, sectionId) {
      var r := PatchedLanguage(sections, sectionId, compLabel);
      SameKeysSameIndex(r, sections, sectionId);
    }
  }

  /** Re-applying a patch to one language map changes nothing further and counts the same components. */
  lemma PatchedLanguageIdempotent(sections: Dict<Section>, sectionId: string, compLabel: string)
    ensures var once := PatchedLanguage(sections, sectionId, compLabel);
            && PatchedLanguage(once, sectionId, compLabel) == once
            && LanguageCount(once, sectionId, compLabel) == LanguageCount(sections, sectionId, compLabel)
  {
    match Get(sections, sectionId)
    case None =>
    case Some(s) =>
      var s' := s.(components := CloseMatching(s.components, compLabel));
      var once := Put(sections, sectionId, s');
      CloseMatchingIdempotent(s.components, compLabel);
      assert Get(once, sectionId) == Some(s');
      PutPut(sections, sectionId, s', s');
  }

  /** Re-applying a patch changes nothing further and counts the same components again. */
  lemma PatchIdempotent(data: CourseMap, p: Patch)
    requires PatchApplies(data, p)
    ensures var once := PatchedData(data, p);
            && PatchApplies(once, p)
            && PatchedData(once, p) == once
            && PatchCount(once, p) == PatchCount(data, p)
  {
    var once := PatchedData(data, p);
    HasKeyInKeys(data, p.course);
    HasKeyInKeys(once, p.course);
    if HasEquivalent(p.course) {
      HasKeyInKeys(data, EquivalentCourse(p.course));
      HasKeyInKeys(once, EquivalentCourse(p.course));
    }
    match ResolveCourse(data, p.course)
    case None =>
    case Some(target) =>
      assert ResolveCourse(once, p.course) == Some(target);
      var id := SectionIdOf(p.component);
      var cs := Get(data, target).value;
      var patched := CourseSections(PatchedLanguage(cs.english, id, p.component),
                                    PatchedLanguage(cs.french, id, p.component));
      assert Get(once, target) == Some(patched);
      PatchedLanguageIdempotent(cs.english, id, p.component);
      PatchedLanguageIdempotent(cs.french, id, p.component);
      PutPut(data, target, patched, patched);
  }

  /** The section a resolved patch names, in one language map of its course, after the patch. */
  function SectionAfterPatch(data: CourseMap, p: Patch, lang: Language): Option<Section>
    requires PatchApplies(data, p) && ResolveCourse(data, p.course).Some?
  {
    var target := ResolveCourse(data, p.course).value;
    var after := Get(PatchedData(data, p), target).value;
    Get(SectionsIn(after, lang), SectionIdOf(p.component))
  }

  /** After closing, every component carrying the label is CLOSED. */
  lemma LabelledAreClosed(comps: Dict<Component>, compLabel: string)
    ensures forall c :: c in Values(CloseMatching(comps, compLabel)) && c.displayLabel == compLabel ==> c.status == Closed
  {
    var r := CloseMatching(comps, compLabel);
    CloseMatchingPointwise(comps, compLabel);
    forall c | c in Values(r) && c.displayLabel == compLabel
      ensures c.status == Closed
    {
      var m :| 0 <= m < |r| && Values(r)[m] == c;
    }
  }

  /** After a resolved patch, every component carrying the label in the named section is CLOSED. */
  lemma LabelledComponentsClosed(data: CourseMap, p: Patch, lang: Language)
    requires PatchApplies(data, p) && ResolveCourse(data, p.course).Some?
    ensures var patched := SectionAfterPatch(data, p, lang);
            patched.Some? ==>
              forall c :: c in Values(patched.value.components) && c.displayLabel == p.component ==> c.status == Closed
  {
    var target := ResolveCourse(data, p.course).value;
    var cs := Get(data, target).value;
    var id := SectionIdOf(p.component);
    var sections := SectionsIn(cs, lang);
    assert SectionsIn(Get(PatchedData(data, p), target).value, lang) == PatchedLanguage(sections, id, p.component);
    ClosedSectionAfterPatch(sections, id, p.component);
    if SectionAfterPatch(data, p, lang).Some? {
      LabelledAreClosed(Get(sections, id).value.components, p.component);
    }
  }

  /**
   * After a resolved patch, no option generated for the patched section of
   * either language map contains a component carrying the patched label.
   */
  lemma PatchedComponentsNeverOffered(data: CourseMap, p: Patch, lang: Language, o: SectionOption)
    requires PatchApplies(data, p) && ResolveCourse(data, p.course).Some?
    requires SectionAfterPatch(data, p, lang).Some?
    requires o in SectionOptions.SectionOptions(SectionAfterPatch(data, p, lang).value)
    ensures forall c :: c in o.components ==> c.displayLabel != p.component
  {
    LabelledComponentsClosed(data, p, lang);
    OptionComponentsAreOpen(SectionAfterPatch(data, p, lang).value, o);
  }

  /** The named section is present after patching a language map only if it was before, and then it is the closed one. */
  lemma ClosedSectionAfterPatch(sections: Dict<Section>, sectionId: string, compLabel: string)
    ensures var after := Get(PatchedLanguage(sections, sectionId, compLabel), sectionId);
            after.Some? ==>
              && HasKey(sections, sectionId)
              && after.value == Get(sections, sectionId).value.(components := CloseMatching(Get(sections, sectionId).value.components, compLabel))
  {
  }

  /** Closes, in place, every component of one section that carries the label, counting them. */
  method CloseLabelled(components: Dict<Component>, compLabel: string) returns (comps: Dict<Component>, count: nat)
    ensures comps == CloseMatching(components, compLabel)
    ensures count == CountMatching(components, compLabel)
  {
    comps := components;
    count := 0;
    for j := 0 to |components|
      invariant |comps| == |components|
      invariant forall m :: 0 <= m < j ==> comps[m] == CloseIfLabelled(components[m], compLabel)
      invariant forall m :: j <= m < |components| ==> comps[m] == components[m]
      invariant count == CountMatching(components[..j], compLabel)
    {
      assert components[..j + 1][..j] == components[..j];
      if comps[j].1.displayLabel == compLabel {
        comps := comps[j := (comps[j].0, comps[j].1.(status := Closed))];
        count := count + 1;
      }
    }
    assert components[..|components|] == components;
    CloseMatchingPointwise(components, compLabel);
  }

  /** The patch on one language map: the named section, when present, has its labelled components closed. */
  method PatchSections(sections: Dict<Section>, sectionId: string, compLabel: string) returns (patched: Dict<Section>, count: nat)
    ensures patched == PatchedLanguage(sections, sectionId, compLabel)
    ensures count == LanguageCount(sections, sectionId, compLabel)
  {
    patched := sections;
    count := 0;
    var found := Get(sections, sectionId);
    if found.Some? {
      var section := found.value;
      var comps;
      comps, count := CloseLabelled(section.components, compLabel);
      patched := Put(sections, sectionId, section.(components := comps));
    }
  }

  /** The loaded course data, patched in place. */
  class Catalog {
    var courses: CourseMap

    constructor (courses: CourseMap)
      ensures this.courses == courses
    {
      this.courses := courses;
    }

    /** `apply_unavailable_patches`: applies the patches in order and returns how many components it closed. */
    method ApplyUnavailablePatches(unavailable: seq<Patch>) returns (patchedCount: nat)
      requires Applicable(courses, unavailable)
      modifies this
      ensures courses == AfterPatches(old(courses), unavailable)
      ensures patchedCount == TotalCount(old(courses), unavailable)
    {
      ghost var start := courses;
      patchedCount := 0;
      for i := 0 to |unavailable|
        invariant courses == AfterPatches(start, unavailable[..i])
        invariant patchedCount == TotalCount(start, unavailable[..i])
      {
        PatchesSnoc(start, unavailable, i);
        var count := ApplyPatch(unavailable[i]);
        patchedCount := patchedCount + count;
      }
      assert unavailable[..|unavailable|] == unavailable;
    }

    /** One patch: resolves its course, skipping it when unresolved, then patches both language maps. */
    method ApplyPatch(patch: Patch) returns (count: nat)
      requires PatchApplies(courses, patch)
      modifies this
      ensures courses == PatchedData(old(courses), patch)
      ensures count == PatchCount(old(courses), patch)
    {
      var sectionId := SectionIdOf(patch.component);
      var target := ResolveCourse(courses, patch.course);
      if target.None? {
        return 0;
      }
      count := PatchCourseInPlace(target.value, sectionId, patch.component);
    }

    /** Patches both language maps of a loaded course. */
    method PatchCourseInPlace(target: string, sectionId: string, compLabel: string) returns (count: nat)
      requires HasKey(courses, target)
      modifies this
      ensures courses == PatchedCourse(old(courses), target, sectionId, compLabel)
      ensures count == CourseCount(old(courses), target, sectionId, compLabel)
    {
      var langSections := Get(courses, target).value;
      var english, ne := PatchSections(langSections.english, sectionId, compLabel);
      var french, nf := PatchSections(langSections.french, sectionId, compLabel);
      courses := Put(courses, target, CourseSections(english, french));
      count := ne + nf;
    }
  }
}
