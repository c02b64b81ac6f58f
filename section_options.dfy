/**
 * Expansion of one section into its attendance options. Lectures are taken
 * as one indivisible group: if any lecture of the section is not OPEN, the
 * section yields nothing. Every other component type present in the section
 * (lab, tutorial, discussion group, seminar, workshop) needs at least one
 * OPEN instance, and each option picks exactly one OPEN instance of each
 * present type. An option is all OPEN lectures followed by the picks, in
 * lab, tutorial, discussion group, seminar, workshop order.
 */
module SectionOptions {
  import opened Dicts
  import opened Seqs
  import opened Models

  datatype SectionOption = SectionOption(section: Section, components: seq<Component>)

  /** The types a student picks one instance of, in the order options list them. */
  const ChoiceTypes: seq<ComponentType> := [Lab, Tut, Dgd, Sem, Wrk]

  /** The test `comp.status == 'OPEN' and comp.type == t`. */
  function OpenOfTypeTest(t: ComponentType): Component -> bool {
    (c: Component) => c.kind == t && c.status == Open
  }

  /** The OPEN components of `s` whose type is `t`, in dictionary order. */
  function OpenOfType(s: Section, t: ComponentType): (r: seq<Component>)
    ensures forall c :: c in r <==> c in Values(s.components) && c.kind == t && c.status == Open
  {
    Filter(Values(s.components), OpenOfTypeTest(t))
  }

  /** The section has lectures and not all of them are OPEN. */
  predicate LecturesBlocked(s: Section) {
    |ComponentsByType(s, Lec)| > 0 && |ComponentsByType(s, Lec)| != |OpenOfType(s, Lec)|
  }

  /** The section has components of type `t` but none of them is OPEN. */
  predicate TypeUnavailable(s: Section, t: ComponentType) {
    |ComponentsByType(s, t)| > 0 && |OpenOfType(s, t)| == 0
  }

  /** The section passes both validation steps. */
  predicate Admissible(s: Section) {
    !LecturesBlocked(s) && forall i :: 0 <= i < |ChoiceTypes| ==> !TypeUnavailable(s, ChoiceTypes[i])
  }

  /** `[[comp] for comp in cs]`. */
  function Singletons(cs: seq<Component>): (r: seq<seq<Component>>)
    ensures |r| == |cs| && forall i :: 0 <= i < |cs| ==> r[i] == [cs[i]]
  {
    seq(|cs|, i requires 0 <= i < |cs| => [cs[i]])
  }

  /**
   * The choice dimension of one type: one singleton per OPEN instance when the
   * type is present, otherwise the single empty choice.
   */
  function ChoiceList(all: seq<Component>, open: seq<Component>): seq<seq<Component>> {
    if |all| > 0 then Singletons(open) else [[]]
  }

  function Choices(s: Section, t: ComponentType): seq<seq<Component>> {
    ChoiceList(ComponentsByType(s, t), OpenOfType(s, t))
  }

  /** The five choice dimensions, in lab, tutorial, DGD, seminar, workshop order. */
  function Dimensions(s: Section): seq<seq<seq<Component>>> {
    [Choices(s, Lab), Choices(s, Tut), Choices(s, Dgd), Choices(s, Sem), Choices(s, Wrk)]
  }

  /** One option per pick: the lectures followed by the picked components. */
  function OptionsFrom(s: Section, lectures: seq<Component>, picks: seq<seq<seq<Component>>>): (r: seq<SectionOption>)
    ensures |r| == |picks|
    decreases |picks|
  {
    if |picks| == 0 then []
    else OptionsFrom(s, lectures, picks[..|picks| - 1]) + [SectionOption(s, lectures + Flatten(picks[|picks| - 1]))]
  }

  lemma {:induction false} OptionsFromMembership(s: Section, lectures: seq<Component>, picks: seq<seq<seq<Component>>>, o: SectionOption)
    ensures o in OptionsFrom(s, lectures, picks) <==> exists p :: p in picks && o == SectionOption(s, lectures + Flatten(p))
    decreases |picks|
  {
    if |picks| > 0 {
      var front := picks[..|picks| - 1];
      var last := picks[|picks| - 1];
      assert picks == front + [last];
      OptionsFromMembership(s, lectures, front, o);
      if exists p :: p in picks && o == SectionOption(s, lectures + Flatten(p)) {
        var p :| p in picks && o == SectionOption(s, lectures + Flatten(p));
        if p != last {
          assert p in front;
        }
      }
    }
  }

  /** What the option generator returns for a section. */
  function SectionOptions(s: Section): (r: seq<SectionOption>)
    ensures LecturesBlocked(s) ==> r == []
    ensures (exists i :: 0 <= i < |ChoiceTypes| && TypeUnavailable(s, ChoiceTypes[i])) ==> r == []
  {
    if !Admissible(s) then []
    else OptionsFrom(s, OpenOfType(s, Lec), CrossProduct(Dimensions(s)))
  }

  /** How many instances of type `t` an option can choose from; an absent type counts 1. */
  function Factor(s: Section, t: ComponentType): nat {
    if |ComponentsByType(s, t)| > 0 then |OpenOfType(s, t)| else 1
  }

  /**
   * An admissible section yields the product, over the five choice types, of
   * the number of OPEN instances of each present type.
   */
  lemma SectionOptionCount(s: Section)
    requires Admissible(s)
    ensures |SectionOptions(s)|
         == Factor(s, Lab) * (Factor(s, Tut) * (Factor(s, Dgd) * (Factor(s, Sem) * Factor(s, Wrk))))
  {
    ChoicesLength(s, Lab);
    ChoicesLength(s, Tut);
    ChoicesLength(s, Dgd);
    ChoicesLength(s, Sem);
    ChoicesLength(s, Wrk);
    ProductOfFive(Choices(s, Lab), Choices(s, Tut), Choices(s, Dgd), Choices(s, Sem), Choices(s, Wrk));
  }

  lemma ChoicesLength(s: Section, t: ComponentType)
    ensures |Choices(s, t)| == Factor(s, t)
  {
  }

  lemma ProductOfFive<T>(a: seq<T>, b: seq<T>, c: seq<T>, d: seq<T>, e: seq<T>)
    ensures ProductOfLengths([a, b, c, d, e]) == |a| * (|b| * (|c| * (|d| * |e|)))
  {
    assert [e][1..] == [];
    assert ProductOfLengths([e]) == |e|;
    assert [d, e][1..] == [e];
    assert ProductOfLengths([d, e]) == |d| * |e|;
    assert [c, d, e][1..] == [d, e];
    assert ProductOfLengths([c, d, e]) == |c| * (|d| * |e|);
    assert [b, c, d, e][1..] == [c, d, e];
    assert ProductOfLengths([b, c, d, e]) == |b| * (|c| * (|d| * |e|));
    assert [a, b, c, d, e][1..] == [b, c, d, e];
  }

  /** A legal choice for type `t`: one OPEN instance if the type is present, nothing otherwise. */
  predicate IsChoice(s: Section, t: ComponentType, ch: seq<Component>) {
    if |ComponentsByType(s, t)| > 0 then |ch| == 1 && ch[0] in OpenOfType(s, t) else ch == []
  }

  /** A legal choice for each of the five types, in order. */
  predicate ValidPick(s: Section, p: seq<seq<Component>>) {
    |p| == |ChoiceTypes| && forall i :: 0 <= i < |ChoiceTypes| ==> IsChoice(s, ChoiceTypes[i], p[i])
  }

  lemma ChoiceMembership(s: Section, t: ComponentType, ch: seq<Component>)
    ensures ch in Choices(s, t) <==> IsChoice(s, t, ch)
  {
    if |ComponentsByType(s, t)| > 0 && |ch| == 1 && ch[0] in OpenOfType(s, t) {
      var open := OpenOfType(s, t);
      var k :| 0 <= k < |open| && open[k] == ch[0];
      assert Singletons(open)[k] == ch;
    }
  }

  /** The i-th dimension offers the choices of the i-th choice type. */
  lemma DimensionAt(s: Section, i: nat)
    requires i < |ChoiceTypes|
    ensures Dimensions(s)[i] == Choices(s, ChoiceTypes[i])
  {
    if i == 0 {
    } else if i == 1 {
    } else if i == 2 {
    } else if i == 3 {
    } else {
    }
  }

  lemma PickMembership(s: Section, p: seq<seq<Component>>)
    ensures p in CrossProduct(Dimensions(s)) <==> ValidPick(s, p)
  {
    var dims := Dimensions(s);
    CrossProductMembership(dims, p);
    assert |dims| == |ChoiceTypes| == 5;
    if |p| == 5 {
      forall i | 0 <= i < 5 ensures p[i] in dims[i] <==> IsChoice(s, ChoiceTypes[i], p[i]) {
        DimensionAt(s, i);
        ChoiceMembership(s, ChoiceTypes[i], p[i]);
      }
    }
  }

  /**
   * Soundness and completeness of the option generator: an option is produced
   * exactly when the section is admissible and the option is the section's
   * OPEN lectures followed by a legal choice for each of the five types.
   */
  lemma SectionOptionMembership(s: Section, o: SectionOption)
    ensures o in SectionOptions(s)
        <==> Admissible(s) && o.section == s
             && exists p :: ValidPick(s, p) && o.components == OpenOfType(s, Lec) + Flatten(p)
  {
    if Admissible(s) {
      var lectures := OpenOfType(s, Lec);
      if o in SectionOptions(s) {
        OptionsFromMembership(s, lectures, CrossProduct(Dimensions(s)), o);
        var p :| p in CrossProduct(Dimensions(s)) && o == SectionOption(s, lectures + Flatten(p));
        PickMembership(s, p);
      }
      if o.section == s && exists p :: ValidPick(s, p) && o.components == lectures + Flatten(p) {
        var p :| ValidPick(s, p) && o.components == lectures + Flatten(p);
        PickMembership(s, p);
        assert o == SectionOption(s, lectures + Flatten(p));
        OptionsFromMembership(s, lectures, CrossProduct(Dimensions(s)), o);
      }
    }
  }

  /** Every component a legal pick chooses is an OPEN component of the section. */
  lemma PickedComponentsAreOpen(s: Section, p: seq<seq<Component>>, c: Component)
    requires ValidPick(s, p) && c in Flatten(p)
    ensures c in Values(s.components) && c.status == Open
  {
    var i :| 0 <= i < |p| && c in p[i];
    var t := ChoiceTypes[i];
    assert IsChoice(s, t, p[i]);
    var open := OpenOfType(s, t);
    if |ComponentsByType(s, t)| > 0 {
      assert p[i] == [p[i][0]] && p[i][0] in open;
      assert c in open;
    }
  }

  /** Every component of an option is an OPEN component of its section. */
  lemma OptionComponentsAreOpen(s: Section, o: SectionOption)
    requires o in SectionOptions(s)
    ensures forall c :: c in o.components ==> c in Values(s.components) && c.status == Open
  {
    SectionOptionMembership(s, o);
    var lectures := OpenOfType(s, Lec);
    var p :| ValidPick(s, p) && o.components == lectures + Flatten(p);
    forall c | c in o.components ensures c in Values(s.components) && c.status == Open {
      if c !in lectures {
        PickedComponentsAreOpen(s, p, c);
      }
    }
  }

  /** Every lecture of the section is in every option: lectures are never chosen individually. */
  lemma OptionsIncludeAllLectures(s: Section, o: SectionOption)
    requires o in SectionOptions(s)
    ensures forall c :: c in Values(s.components) && c.kind == Lec ==> c in o.components
  {
    SectionOptionMembership(s, o);
    var lectures := OpenOfType(s, Lec);
    var p :| ValidPick(s, p) && o.components == lectures + Flatten(p);
    FilterMonotone(Values(s.components), OfType(Lec), OpenOfTypeTest(Lec));
    forall c | c in Values(s.components) && c.kind == Lec ensures c in o.components {
      assert OfType(Lec)(c);
      assert OpenOfTypeTest(Lec)(c);
      assert c in lectures;
    }
  }

  method GenerateSectionOptions(section: Section) returns (options: seq<SectionOption>)
    ensures options == SectionOptions(section)
  {
    var comps := Values(section.components);

    // Group all components by type, then the OPEN ones by type.
    var allByType := GroupByType(comps, false);
    var openByType := GroupByType(comps, true);

    // Every lecture must be OPEN.
    var allLectures := Group(allByType, Lec);
    var openLectures := Group(openByType, Lec);
    if |allLectures| > 0 && |allLectures| != |openLectures| {
      return [];
    }

    // Every other present type needs an OPEN instance.
    for k := 0 to |ChoiceTypes|
      invariant forall j :: 0 <= j < k ==> !TypeUnavailable(section, ChoiceTypes[j])
    {
      var t := ChoiceTypes[k];
      assert Group(allByType, t) == ComponentsByType(section, t);
      assert Group(openByType, t) == OpenOfType(section, t);
      if |Group(allByType, t)| > 0 && |Group(openByType, t)| == 0 {
        assert TypeUnavailable(section, ChoiceTypes[k]);
        return [];
      }
      forall j | 0 <= j < k + 1 ensures !TypeUnavailable(section, ChoiceTypes[j]) {
        if j == k {
          assert ChoiceTypes[j] == t;
        }
      }
    }

    assert Admissible(section);
    var requiredLectures := openLectures;
    var labChoices := ChoiceList(Group(allByType, Lab), Group(openByType, Lab));
    var tutChoices := ChoiceList(Group(allByType, Tut), Group(openByType, Tut));
    var dgdChoices := ChoiceList(Group(allByType, Dgd), Group(openByType, Dgd));
    var semChoices := ChoiceList(Group(allByType, Sem), Group(openByType, Sem));
    var wrkChoices := ChoiceList(Group(allByType, Wrk), Group(openByType, Wrk));
    assert [labChoices, tutChoices, dgdChoices, semChoices, wrkChoices] == Dimensions(section);
    var combos := CrossProduct([labChoices, tutChoices, dgdChoices, semChoices, wrkChoices]);

    options := AppendOptions(section, requiredLectures, combos);
  }

  /** `for combo in product(...): options.append({'section': s, 'components': lectures + combo})`. */
  method AppendOptions(section: Section, requiredLectures: seq<Component>, combos: seq<seq<seq<Component>>>)
      returns (options: seq<SectionOption>)
    ensures options == OptionsFrom(section, requiredLectures, combos)
  {
    options := [];
    for n := 0 to |combos|
      invariant options == OptionsFrom(section, requiredLectures, combos[..n])
    {
      assert combos[..n + 1][..n] == combos[..n];
      options := options + [SectionOption(section, requiredLectures + Flatten(combos[n]))];
    }
    assert combos[..|combos|] == combos;
  }

  /** The membership test of the grouping: the type, and OPEN status when `openOnly` is set. */
  function GroupTest(t: ComponentType, openOnly: bool): Component -> bool {
    if openOnly then OpenOfTypeTest(t) else OfType(t)
  }

  /** Every type's list holds the components of `cs` that pass its test, in order. */
  predicate Grouped(byType: map<ComponentType, seq<Component>>, cs: seq<Component>, openOnly: bool) {
    forall t :: Group(byType, t) == Filter(cs, GroupTest(t, openOnly))
  }

  /** A component passes a type's test exactly when it has that type and, if required, is OPEN. */
  lemma GroupTestMeans(t: ComponentType, openOnly: bool, c: Component)
    ensures GroupTest(t, openOnly)(c) <==> c.kind == t && (!openOnly || c.status == Open)
  {
  }

  /** Appending a component to its type's list, when it passes, keeps the grouping. */
  lemma GroupedSnoc(byType: map<ComponentType, seq<Component>>, cs: seq<Component>, c: Component, openOnly: bool)
    requires Grouped(byType, cs, openOnly)
    ensures GroupTest(c.kind, openOnly)(c) ==> Grouped(byType[c.kind := Group(byType, c.kind) + [c]], cs + [c], openOnly)
    ensures !GroupTest(c.kind, openOnly)(c) ==> Grouped(byType, cs + [c], openOnly)
  {
    var passes := GroupTest(c.kind, openOnly)(c);
    var after := if passes then byType[c.kind := Group(byType, c.kind) + [c]] else byType;
    forall t ensures Group(after, t) == Filter(cs + [c], GroupTest(t, openOnly)) {
      FilterSnoc(cs, c, GroupTest(t, openOnly));
      GroupTestMeans(t, openOnly, c);
      GroupTestMeans(c.kind, openOnly, c);
      if t != c.kind {
        assert Group(after, t) == Group(byType, t);
      }
    }
    assert Grouped(after, cs + [c], openOnly);
  }

  /**
   * `for comp in comps: by_type[comp.type].append(comp)`, keeping only OPEN
   * components when `openOnly` is set.
   */
  method GroupByType(comps: seq<Component>, openOnly: bool) returns (byType: map<ComponentType, seq<Component>>)
    ensures !openOnly ==> forall t :: Group(byType, t) == Filter(comps, OfType(t))
    ensures openOnly ==> forall t :: Group(byType, t) == Filter(comps, OpenOfTypeTest(t))
  {
    byType := map[];
    for i := 0 to |comps|
      invariant Grouped(byType, comps[..i], openOnly)
    {
      var c := comps[i];
      assert comps[..i + 1] == comps[..i] + [c];
      GroupedSnoc(byType, comps[..i], c, openOnly);
      if !openOnly || c.status == Open {
        byType := byType[c.kind := Group(byType, c.kind) + [c]];
      }
    }
    assert comps[..|comps|] == comps;
    assert Grouped(byType, comps, openOnly);
  }

  /** `defaultdict(list)` lookup: the list stored for `t`, or the empty list. */
  function Group(m: map<ComponentType, seq<Component>>, t: ComponentType): seq<Component> {
    if t in m then m[t] else []
  }
}
