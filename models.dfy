/**
 * The section data model: a component is one scheduled meeting of a section,
 * a section is one offering of a course in one language and owns its
 * components keyed by component id, and `SectionData` holds the sections of
 * one course keyed by section id. Status, type and day are closed sets of
 * literals.
 */
module Models {
  import opened Wrappers
  import opened Dicts
  import opened Seqs

  datatype Status = Open | Closed | Full | Waitlist
  datatype ComponentType = Lec | Lab | Tut | Dgd | Sem | Wrk
  datatype Day = Mo | Tu | We | Th | Fr | Sa | Su

  const StatusLiterals: set<string> := {"OPEN", "CLOSED", "FULL", "WAITLIST"}
  const TypeLiterals: set<string> := {"LEC", "LAB", "TUT", "DGD", "SEM", "WRK"}
  const DayLiterals: set<string> := {"MO", "TU", "WE", "TH", "FR", "SA", "SU"}

  function StatusLiteral(s: Status): (lit: string)
    ensures lit in StatusLiterals
  {
    match s
    case Open => "OPEN"
    case Closed => "CLOSED"
    case Full => "FULL"
    case Waitlist => "WAITLIST"
  }

  /** Reads a status literal; anything outside the four literals is refused. */
  function ParseStatus(lit: string): (r: Option<Status>)
    ensures r.Some? <==> lit in StatusLiterals
    ensures r.Some? ==> StatusLiteral(r.value) == lit
  {
    if lit == "OPEN" then Some(Open)
    else if lit == "CLOSED" then Some(Closed)
    else if lit == "FULL" then Some(Full)
    else if lit == "WAITLIST" then Some(Waitlist)
    else None
  }

  function TypeLiteral(t: ComponentType): (lit: string)
    ensures lit in TypeLiterals
  {
    match t
    case Lec => "LEC"
    case Lab => "LAB"
    case Tut => "TUT"
    case Dgd => "DGD"
    case Sem => "SEM"
    case Wrk => "WRK"
  }

  /** Reads a component-type literal; anything outside the six literals is refused. */
  function ParseType(lit: string): (r: Option<ComponentType>)
    ensures r.Some? <==> lit in TypeLiterals
    ensures r.Some? ==> TypeLiteral(r.value) == lit
  {
    if lit == "LEC" then Some(Lec)
    else if lit == "LAB" then Some(Lab)
    else if lit == "TUT" then Some(Tut)
    else if lit == "DGD" then Some(Dgd)
    else if lit == "SEM" then Some(Sem)
    else if lit == "WRK" then Some(Wrk)
    else None
  }

  function DayLiteral(d: Day): (lit: string)
    ensures lit in DayLiterals
  {
    match d
    case Mo => "MO"
    case Tu => "TU"
    case We => "WE"
    case Th => "TH"
    case Fr => "FR"
    case Sa => "SA"
    case Su => "SU"
  }

  /** Reads a day literal; anything outside the seven literals is refused. */
  function ParseDay(lit: string): (r: Option<Day>)
    ensures r.Some? <==> lit in DayLiterals
    ensures r.Some? ==> DayLiteral(r.value) == lit
  {
    if lit == "MO" then Some(Mo)
    else if lit == "TU" then Some(Tu)
    else if lit == "WE" then Some(We)
    else if lit == "TH" then Some(Th)
    else if lit == "FR" then Some(Fr)
    else if lit == "SA" then Some(Sa)
    else if lit == "SU" then Some(Su)
    else None
  }

  /** Reading the literal of a value gives the value back. */
  lemma LiteralsRoundTrip(s: Status, t: ComponentType, d: Day)
    ensures ParseStatus(StatusLiteral(s)) == Some(s)
    ensures ParseType(TypeLiteral(t)) == Some(t)
    ensures ParseDay(DayLiteral(d)) == Some(d)
  {
  }

  /** The literal sets have 4, 6 and 7 distinct members, one per value. */
  lemma LiteralSetSizes()
    ensures |StatusLiterals| == 4 && |TypeLiterals| == 6 && |DayLiterals| == 7
  {
  }

  datatype Component = Component(
    courseId: int,
    sectionId: string,
    id: string,
    guid: string,
    displayLabel: string,
    status: Status,
    kind: ComponentType,
    day: Day,
    startTimestamp: int,
    startTime: string,
    startTime12hr: string,
    endTimestamp: int,
    endTime: string,
    endTime12hr: string,
    startDate: string,
    endDate: string,
    room: string,
    instructor: string,
    sessionType: string,
    description: string)

  datatype Section = Section(
    courseId: int,
    id: string,
    displayLabel: string,
    instructor: string,
    description: string,
    numComponents: int,
    components: Dict<Component>)

  datatype SectionData = SectionData(sections: Dict<Section>)

  /** The test `comp.type == t`. */
  function OfType(t: ComponentType): Component -> bool {
    (c: Component) => c.kind == t
  }

  /** The components of `s` whose type is `t`, in dictionary order. */
  function ComponentsByType(s: Section, t: ComponentType): (r: seq<Component>)
    ensures forall c :: c in r <==> c in Values(s.components) && c.kind == t
  {
    Filter(Values(s.components), OfType(t))
  }

  /** Splitting the component list splits the per-type lists at the same place. */
  lemma ComponentsByTypeKeepsOrder(s: Section, t: ComponentType, n: nat)
    requires n <= |s.components|
    ensures ComponentsByType(s, t)
         == ComponentsByType(s.(components := s.components[..n]), t)
          + ComponentsByType(s.(components := s.components[n..]), t)
  {
    var vs := Values(s.components);
    assert vs == Values(s.components[..n]) + Values(s.components[n..]);
    FilterAppend(Values(s.components[..n]), Values(s.components[n..]), OfType(t));
  }

  /** The section's instructor together with every non-empty component instructor. */
  method GetAllInstructors(s: Section) returns (instructors: set<string>)
    ensures instructors
         == {s.instructor} + set c | c in Values(s.components) && c.instructor != "" :: c.instructor
  {
    var comps := Values(s.components);
    instructors := {s.instructor};
    var i := 0;
    while i < |comps|
      invariant 0 <= i <= |comps|
      invariant instructors
             == {s.instructor} + set c | c in comps[..i] && c.instructor != "" :: c.instructor
    {
      assert comps[..i + 1] == comps[..i] + [comps[i]];
      if comps[i].instructor != "" {
        instructors := instructors + {comps[i].instructor};
      }
      i := i + 1;
    }
    assert comps[..i] == comps;
  }

  /** `sections.get(section_id)`: the stored section, or `None` for an unknown id. */
  function GetSection(data: SectionData, sectionId: string): (r: Option<Section>)
    ensures r.None? <==> forall j :: 0 <= j < |data.sections| ==> data.sections[j].0 != sectionId
    ensures r.Some? ==> exists j :: 0 <= j < |data.sections| && data.sections[j] == (sectionId, r.value)
  {
    var r := Get(data.sections, sectionId);
    assert r.Some? ==> data.sections[IndexOf(data.sections, sectionId).value] == (sectionId, r.value);
    r
  }

  /** `list(sections.values())`. */
  function GetAllSections(data: SectionData): (r: seq<Section>)
    ensures |r| == |data.sections|
    ensures forall j :: 0 <= j < |r| ==> r[j] == data.sections[j].1
  {
    Values(data.sections)
  }

  /** The section has at least one OPEN component. */
  predicate HasOpenComponent(s: Section) {
    exists c :: c in Values(s.components) && c.status == Open
  }

  /** The sections having at least one OPEN component, in dictionary order. */
  function GetOpenSections(data: SectionData): (r: seq<Section>)
    ensures forall s :: s in r <==> s in Values(data.sections) && HasOpenComponent(s)
  {
    Filter(Values(data.sections), HasOpenComponent)
  }

  /** The two language maps of a course: `{'english': {...}, 'french': {...}}`. */
  datatype Language = English | French
  datatype CourseSections = CourseSections(english: Dict<Section>, french: Dict<Section>)

  /** `courses_data`: course code to its two language maps, in insertion order. */
  type CourseMap = Dict<CourseSections>

  function SectionsIn(cs: CourseSections, lang: Language): Dict<Section> {
    match lang
    case English => cs.english
    case French => cs.french
  }

  /** A section option tagged with the language map it came from and its course code. */
  datatype ScheduleOption = ScheduleOption(section: Section, components: seq<Component>, language: Language, courseCode: string)

  /** One option per course, in course order. */
  type Schedule = seq<ScheduleOption>
}
