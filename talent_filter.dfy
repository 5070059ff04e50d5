/** The advanced talent search of the company portal (src/Company/Talen/Talents.jsx):
    the filter state, the handlers that edit it, and the effect that narrows
    `allTalents` to `filteredTalents`. */
module TalentFilter {
  import opened Seqs
  import opened Text
  import opened Records

  /** One "skill / minimum years" row of the search form. */
  datatype SkillRow = SkillRow(id: int, skill: string, experience: string, isDefault: bool)

  datatype SalaryRange = SalaryRange(min: string, max: string)

  datatype Location = Location(country: string, city: string)

  /** Every filter input of the page, as the form holds them (text as typed). */
  datatype Query = Query(
    selectedSpecs: seq<string>,
    selectedLangs: seq<string>,
    occupation: string,
    speciality: string,
    skillsRows: seq<SkillRow>,
    workType: string,
    workplaceType: string,
    salaryRange: SalaryRange,
    location: Location)

  /** The state the page starts in: empty texts, empty selections and one
      blank default skill row. */
  function DefaultQuery(): (q: Query)
    ensures q.skillsRows == [SkillRow(1, "", "", true)]
  {
    Query([], [], "", "", [SkillRow(1, "", "", true)], "", "", SalaryRange("", ""), Location("", ""))
  }

  /** The predicate groups of the filter effect, in the order it applies them. */
  datatype Group =
    | Occupation | Speciality | Specs | Languages | Skills
    | WorkType | WorkplaceType | SalaryMin | SalaryMax | Country | City

  const Groups: seq<Group> :=
    [Occupation, Speciality, Specs, Languages, Skills, WorkType, WorkplaceType, SalaryMin, SalaryMax, Country, City]

  /** `skillsRows.filter(r => r.skill.trim() !== "")`. */
  function ActiveRows(rows: seq<SkillRow>): seq<SkillRow>
  {
    Filter(rows, (r: SkillRow) => Trim(r.skill) != "")
  }

  /** Whether the effect applies the filter of group `g` (its guard). */
  predicate Active(q: Query, g: Group)
  {
    match g
    case Occupation => q.occupation != ""
    case Speciality => q.speciality != ""
    case Specs => |q.selectedSpecs| > 0
    case Languages => |q.selectedLangs| > 0
    case Skills => |ActiveRows(q.skillsRows)| > 0
    case WorkType => q.workType != ""
    case WorkplaceType => q.workplaceType != ""
    case SalaryMin => q.salaryRange.min != ""
    case SalaryMax => q.salaryRange.max != ""
    case Country => q.location.country != ""
    case City => q.location.city != ""
  }

  /** `field?.toLowerCase().includes(text.toLowerCase())`: an absent field fails. */
  predicate FieldIncludes(field: Option<string>, text: string)
  {
    field.Some? && Contains(Lower(field.value), Lower(text))
  }

  /** `typeof raw === "string" ? JSON.parse(raw) : raw || []`, followed by a use
      of the array method `some`: `None` when that throws (malformed JSON, or a
      value that is not an array), which the surrounding `catch` turns into
      "exclude the talent". */
  function ListOf<T>(raw: Raw<T>, decode: Decoder<T>): (r: Option<seq<T>>)
    ensures raw.Items? ==> r == Some(raw.items)
    ensures raw.Missing? ==> r == Some([])
    ensures raw.Text? ==> (r.Some? <==> decode(raw.text).ParsedList?)
  {
    match raw
    case Missing => Some([])
    case Text(s) => (match decode(s) case ParsedList(xs) => Some(xs) case _ => None)
    case Items(xs) => Some(xs)
    case Scalar(truthy) => if truthy then None else Some([])
  }

  /** Some selected language equals, ignoring case, a language the talent lists. */
  predicate SpeaksSelected(selected: seq<string>, entries: seq<LanguageEntry>)
  {
    exists sl, tl :: sl in selected && tl in entries && tl.language.Some? && Lower(tl.language.value) == Lower(sl)
  }

  /** `ts.skill || ""` for an entry of the skill list. */
  function SkillName(ts: SkillEntry): string
  {
    match ts
    case SkillObject(skill, _, _) => skill.GetOr("")
    case SkillText(_) => ""
  }

  /** `ts.experience_years`, as text; a bare string entry has none. */
  function ExperienceText(ts: SkillEntry): string
  {
    match ts
    case SkillObject(_, _, years) => years
    case SkillText(_) => ""
  }

  /** A talent skill satisfies a row: its lower-cased name contains the row's
      lower-cased, untrimmed text, and, when the row gives a minimum, its parsed
      years reach the row's parsed years. */
  predicate RowSatisfiedBy(row: SkillRow, ts: SkillEntry)
  {
    && Contains(Lower(SkillName(ts)), Lower(row.skill))
    && (row.experience == "" || ParseIntOrZero(ExperienceText(ts)) >= ParseIntOrZero(row.experience))
  }

  /** Every row is satisfied by some skill of the list. */
  predicate CoversRows(rows: seq<SkillRow>, entries: seq<SkillEntry>)
  {
    forall row :: row in rows ==> exists ts :: ts in entries && RowSatisfiedBy(row, ts)
  }

  /** `t.minimum_salary || 0`. */
  function SalaryOf(t: Talent): int
  {
    t.minimumSalary.GetOr(0)
  }

  /** `x >= Number(text)`: false when the bound is NaN. */
  predicate AtLeast(x: int, bound: NumberResult)
  {
    bound.Finite? && x >= bound.value
  }

  /** `x <= Number(text)`: false when the bound is NaN. */
  predicate AtMost(x: int, bound: NumberResult)
  {
    bound.Finite? && x <= bound.value
  }

  /** The test of group `g` on one talent. */
  predicate Passes(q: Query, g: Group, t: Talent, dec: Decoders)
  {
    match g
    case Occupation => FieldIncludes(t.occupation, q.occupation)
    case Speciality => FieldIncludes(t.specialty, q.speciality)
    case Specs => t.specialty.Some? && t.specialty.value in q.selectedSpecs
    case Languages =>
      var langs := ListOf(t.language, dec.languages);
      langs.Some? && SpeaksSelected(q.selectedLangs, langs.value)
    case Skills =>
      var skills := ListOf(t.skils, dec.skills);
      skills.Some? && CoversRows(ActiveRows(q.skillsRows), skills.value)
    case WorkType => t.workType == Some(q.workType)
    case WorkplaceType => t.workplaceType == Some(q.workplaceType)
    case SalaryMin => AtLeast(SalaryOf(t), NumberOf(q.salaryRange.min))
    case SalaryMax => AtMost(SalaryOf(t), NumberOf(q.salaryRange.max))
    case Country => FieldIncludes(t.country, q.location.country)
    case City => FieldIncludes(t.city, q.location.city)
  }

  /** The talent passes every active group among `gs`. */
  predicate PassesAll(q: Query, t: Talent, dec: Decoders, gs: seq<Group>)
  {
    if gs == [] then true
    else
      var g := gs[|gs| - 1];
      (Active(q, g) ==> Passes(q, g, t, dec)) && PassesAll(q, t, dec, gs[..|gs| - 1])
  }

  /** The talent passes every active group of the search. */
  predicate Matches(q: Query, t: Talent, dec: Decoders)
  {
    PassesAll(q, t, dec, Groups)
  }

  /** The talents passing the groups `gs`, in their original order. */
  function EvaluateUpTo(q: Query, ts: seq<Talent>, dec: Decoders, gs: seq<Group>): seq<Talent>
  {
    Filter(ts, (t: Talent) => PassesAll(q, t, dec, gs))
  }

  /** What `filteredTalents` should be for the search `q`. */
  function Evaluate(q: Query, ts: seq<Talent>, dec: Decoders): seq<Talent>
  {
    EvaluateUpTo(q, ts, dec, Groups)
  }

  /** `result.filter(<test of group g>)`. */
  function KeepGroup(ts: seq<Talent>, q: Query, g: Group, dec: Decoders): seq<Talent>
  {
    Filter(ts, (t: Talent) => Passes(q, g, t, dec))
  }

  lemma {:induction false} PassesAllIff(q: Query, t: Talent, dec: Decoders, gs: seq<Group>)
    ensures PassesAll(q, t, dec, gs) <==> forall g :: g in gs && Active(q, g) ==> Passes(q, g, t, dec)
  {
    if gs != [] {
      PassesAllIff(q, t, dec, gs[..|gs| - 1]);
      assert gs == gs[..|gs| - 1] + [gs[|gs| - 1]];
    }
  }

  lemma {:induction false} EvaluateNothing(q: Query, ts: seq<Talent>, dec: Decoders)
    ensures EvaluateUpTo(q, ts, dec, []) == ts
  {
    if ts != [] {
      EvaluateNothing(q, ts[1..], dec);
      assert [ts[0]] + ts[1..] == ts;
    }
  }

  /** One step of the effect: `result.filter(<test of group g>)` when the
      guard of `g` holds, `result` unchanged otherwise. */
  function Step(result: seq<Talent>, q: Query, g: Group, dec: Decoders): seq<Talent>
  {
    if Active(q, g) then KeepGroup(result, q, g, dec) else result
  }

  /** The effect's `result` after its first `n` groups, one step at a time. */
  function Staged(q: Query, ts: seq<Talent>, dec: Decoders, n: nat): seq<Talent>
    requires n <= |Groups|
  {
    if n == 0 then ts else Step(Staged(q, ts, dec, n - 1), q, Groups[n - 1], dec)
  }

  /** Applying group `g` when its guard holds, and skipping it otherwise,
      extends the groups passed so far by `g`. */
  lemma StepExtends(q: Query, ts: seq<Talent>, dec: Decoders, gs: seq<Group>, g: Group)
    ensures Step(EvaluateUpTo(q, ts, dec, gs), q, g, dec) == EvaluateUpTo(q, ts, dec, gs + [g])
  {
    assert (gs + [g])[..|gs|] == gs;
    if Active(q, g) {
      FilterFilter(ts, (t: Talent) => PassesAll(q, t, dec, gs), (t: Talent) => Passes(q, g, t, dec),
        (t: Talent) => PassesAll(q, t, dec, gs + [g]));
    } else {
      FilterSame(ts, (t: Talent) => PassesAll(q, t, dec, gs), (t: Talent) => PassesAll(q, t, dec, gs + [g]));
    }
  }

  /** Narrowing stage by stage keeps exactly the talents passing every active
      group so far: the staged pipeline and the all-at-once filter agree. */
  lemma {:induction false} StagedIsEvaluate(q: Query, ts: seq<Talent>, dec: Decoders, n: nat)
    requires n <= |Groups|
    ensures Staged(q, ts, dec, n) == EvaluateUpTo(q, ts, dec, Groups[..n])
  {
    if n == 0 {
      EvaluateNothing(q, ts, dec);
    } else {
      var before := Groups[..n - 1];
      PrefixExtend(Groups, n);
      StagedIsEvaluate(q, ts, dec, n - 1);
      StepExtends(q, ts, dec, before, Groups[n - 1]);
    }
  }

  /** `if (guard) result = result.filter(<test of group g>)`, where the guard
      is the source's own test that group `g`, the `n`-th, has input. */
  method Narrow(result: seq<Talent>, guard: bool, q: Query, g: Group, dec: Decoders,
                ghost allTalents: seq<Talent>, ghost n: nat) returns (narrowed: seq<Talent>)
    requires n < |Groups| && g == Groups[n]
    requires guard == Active(q, g)
    requires result == Staged(q, allTalents, dec, n)
    ensures narrowed == Staged(q, allTalents, dec, n + 1)
  {
    narrowed := result;
    if guard {
      narrowed := KeepGroup(result, q, g, dec);
    }
  }

  /** The free-text occupation and speciality inputs (lines 65-73). */
  method NarrowByText(allTalents: seq<Talent>, q: Query, dec: Decoders) returns (result: seq<Talent>)
    ensures result == Staged(q, allTalents, dec, 2)
  {
    result := Narrow(allTalents, q.occupation != "", q, Occupation, dec, allTalents, 0);
    result := Narrow(result, q.speciality != "", q, Speciality, dec, allTalents, 1);
  }

  /** The specialty and language selections (lines 75-94). */
  method NarrowBySelections(result: seq<Talent>, q: Query, dec: Decoders, ghost allTalents: seq<Talent>)
    returns (narrowed: seq<Talent>)
    requires result == Staged(q, allTalents, dec, 2)
    ensures narrowed == Staged(q, allTalents, dec, 4)
  {
    narrowed := Narrow(result, |q.selectedSpecs| > 0, q, Specs, dec, allTalents, 2);
    narrowed := Narrow(narrowed, |q.selectedLangs| > 0, q, Languages, dec, allTalents, 3);
  }

  /** The skill rows that have a skill name (lines 96-121). */
  method NarrowBySkills(result: seq<Talent>, q: Query, dec: Decoders, ghost allTalents: seq<Talent>)
    returns (narrowed: seq<Talent>)
    requires result == Staged(q, allTalents, dec, 4)
    ensures narrowed == Staged(q, allTalents, dec, 5)
  {
    // `activeSkills.length > 0`, the guard of this group
    var skillsActive := Active(q, Skills);
    narrowed := Narrow(result, skillsActive, q, Skills, dec, allTalents, 4);
  }

  /** The employment and workplace types (lines 123-125). */
  method NarrowByWork(result: seq<Talent>, q: Query, dec: Decoders, ghost allTalents: seq<Talent>)
    returns (narrowed: seq<Talent>)
    requires result == Staged(q, allTalents, dec, 5)
    ensures narrowed == Staged(q, allTalents, dec, 7)
  {
    narrowed := Narrow(result, q.workType != "", q, WorkType, dec, allTalents, 5);
    narrowed := Narrow(narrowed, q.workplaceType != "", q, WorkplaceType, dec, allTalents, 6);
  }

  /** The salary bounds (lines 126-133). */
  method NarrowBySalary(result: seq<Talent>, q: Query, dec: Decoders, ghost allTalents: seq<Talent>)
    returns (narrowed: seq<Talent>)
    requires result == Staged(q, allTalents, dec, 7)
    ensures narrowed == Staged(q, allTalents, dec, 9)
  {
    narrowed := Narrow(result, q.salaryRange.min != "", q, SalaryMin, dec, allTalents, 7);
    narrowed := Narrow(narrowed, q.salaryRange.max != "", q, SalaryMax, dec, allTalents, 8);
  }

  /** The country and city inputs (lines 134-141). */
  method NarrowByLocation(result: seq<Talent>, q: Query, dec: Decoders, ghost allTalents: seq<Talent>)
    returns (narrowed: seq<Talent>)
    requires result == Staged(q, allTalents, dec, 9)
    ensures narrowed == Staged(q, allTalents, dec, 11)
  {
    narrowed := Narrow(result, q.location.country != "", q, Country, dec, allTalents, 9);
    narrowed := Narrow(narrowed, q.location.city != "", q, City, dec, allTalents, 10);
  }

  /** After every group the staged result is the search result. */
  lemma StagedAllIsEvaluate(q: Query, ts: seq<Talent>, dec: Decoders)
    ensures Staged(q, ts, dec, 11) == Evaluate(q, ts, dec)
  {
    StagedIsEvaluate(q, ts, dec, |Groups|);
    assert Groups[..|Groups|] == Groups;
  }

  /** The filter effect (lines 62-143): `result` starts as a copy of
      `allTalents` and is narrowed, in order, by each group whose input is set. */
  method ApplyFilters(allTalents: seq<Talent>, q: Query, dec: Decoders) returns (result: seq<Talent>)
    ensures result == Evaluate(q, allTalents, dec)
  {
    result := NarrowByText(allTalents, q, dec);
    result := NarrowBySelections(result, q, dec, allTalents);
    result := NarrowBySkills(result, q, dec, allTalents);
    result := NarrowByWork(result, q, dec, allTalents);
    result := NarrowBySalary(result, q, dec, allTalents);
    result := NarrowByLocation(result, q, dec, allTalents);
    StagedAllIsEvaluate(q, allTalents, dec);
  }

  // ---- properties of the search ----

  /** The result is an order-preserving selection of `allTalents`: nothing is
      added, duplicated or reordered. */
  lemma EvaluateIsSubsequence(q: Query, ts: seq<Talent>, dec: Decoders)
    ensures IsSubsequence(Evaluate(q, ts, dec), ts)
    ensures multiset(Evaluate(q, ts, dec)) <= multiset(ts)
  {
    FilterIsSubsequence(ts, (t: Talent) => PassesAll(q, t, dec, Groups));
  }

  /** The groups combine by AND: a talent is kept exactly when it passes the
      test of every group whose input is set. */
  lemma EvaluateMembership(q: Query, ts: seq<Talent>, dec: Decoders, t: Talent)
    ensures t in Evaluate(q, ts, dec) <==>
      t in ts && forall g :: g in Groups && Active(q, g) ==> Passes(q, g, t, dec)
  {
    PassesAllIff(q, t, dec, Groups);
  }

  /** With no input set, the search keeps every talent. */
  lemma InactiveQueryKeepsAll(q: Query, ts: seq<Talent>, dec: Decoders)
    requires forall g :: !Active(q, g)
    ensures Evaluate(q, ts, dec) == ts
  {
    forall t | t in ts ensures PassesAll(q, t, dec, Groups) {
      PassesAllIff(q, t, dec, Groups);
    }
    FilterAllPass(ts, (t: Talent) => PassesAll(q, t, dec, Groups));
  }

  /** The page's initial filter state keeps every talent. */
  lemma DefaultQueryKeepsAll(ts: seq<Talent>, dec: Decoders)
    ensures Evaluate(DefaultQuery(), ts, dec) == ts
  {
    var q := DefaultQuery();
    assert Trim(q.skillsRows[0].skill) == "";
    assert ActiveRows(q.skillsRows) == [];
    InactiveQueryKeepsAll(q, ts, dec);
  }

  /** When a language is selected, a talent whose language data cannot be
      read as a list is excluded. */
  lemma UnreadableLanguagesExcluded(q: Query, ts: seq<Talent>, dec: Decoders, t: Talent)
    requires |q.selectedLangs| > 0
    requires ListOf(t.language, dec.languages).None?
    ensures t !in Evaluate(q, ts, dec)
  {
    EvaluateMembership(q, ts, dec, t);
    assert Languages in Groups && Active(q, Languages) && !Passes(q, Languages, t, dec);
  }

  /** When a skill row is active, a talent whose skill data cannot be read as
      a list is excluded. */
  lemma UnreadableSkillsExcluded(q: Query, ts: seq<Talent>, dec: Decoders, t: Talent)
    requires |ActiveRows(q.skillsRows)| > 0
    requires ListOf(t.skils, dec.skills).None?
    ensures t !in Evaluate(q, ts, dec)
  {
    EvaluateMembership(q, ts, dec, t);
    assert Skills in Groups && Active(q, Skills) && !Passes(q, Skills, t, dec);
  }

  /** A salary bound that `Number` reads as NaN excludes every talent, since
      every comparison with NaN is false. */
  lemma SalaryNaNExcludesAll(q: Query, ts: seq<Talent>, dec: Decoders, t: Talent)
    requires || (q.salaryRange.min != "" && NumberOf(q.salaryRange.min).NaN?)
             || (q.salaryRange.max != "" && NumberOf(q.salaryRange.max).NaN?)
    ensures t !in Evaluate(q, ts, dec)
  {
    var g := if q.salaryRange.min != "" && NumberOf(q.salaryRange.min).NaN? then SalaryMin else SalaryMax;
    assert Active(q, g) && !Passes(q, g, t, dec);
    assert g in Groups;
    EvaluateMembership(q, ts, dec, t);
  }

  /** A row whose skill text is blank takes no part in the search. */
  lemma BlankRowIgnored(q: Query, row: SkillRow, ts: seq<Talent>, dec: Decoders)
    requires Trim(row.skill) == ""
    ensures Evaluate(q.(skillsRows := q.skillsRows + [row]), ts, dec) == Evaluate(q, ts, dec)
  {
    var q' := q.(skillsRows := q.skillsRows + [row]);
    FilterAppend(q.skillsRows, [row], (r: SkillRow) => Trim(r.skill) != "");
    assert ActiveRows(q'.skillsRows) == ActiveRows(q.skillsRows);
    forall t | t in ts ensures PassesAll(q', t, dec, Groups) == PassesAll(q, t, dec, Groups) {
      SameGroups(q', q, t, dec, Groups);
    }
    FilterSame(ts, (t: Talent) => PassesAll(q', t, dec, Groups), (t: Talent) => PassesAll(q, t, dec, Groups));
  }

  /** Two searches that differ only in blank skill rows treat each talent alike. */
  lemma {:induction false} SameGroups(q1: Query, q2: Query, t: Talent, dec: Decoders, gs: seq<Group>)
    requires q1.(skillsRows := q2.skillsRows) == q2
    requires ActiveRows(q1.skillsRows) == ActiveRows(q2.skillsRows)
    ensures PassesAll(q1, t, dec, gs) == PassesAll(q2, t, dec, gs)
  {
    if gs != [] {
      SameGroups(q1, q2, t, dec, gs[..|gs| - 1]);
      SameGuard(q1, q2, gs[|gs| - 1]);
      SameTest(q1, q2, t, dec, gs[|gs| - 1]);
    }
  }

  lemma SameGuard(q1: Query, q2: Query, g: Group)
    requires q1.(skillsRows := q2.skillsRows) == q2
    requires ActiveRows(q1.skillsRows) == ActiveRows(q2.skillsRows)
    ensures Active(q1, g) == Active(q2, g)
  {
    SameFields(q1, q2);
  }

  lemma SameTest(q1: Query, q2: Query, t: Talent, dec: Decoders, g: Group)
    requires q1.(skillsRows := q2.skillsRows) == q2
    requires ActiveRows(q1.skillsRows) == ActiveRows(q2.skillsRows)
    ensures Passes(q1, g, t, dec) == Passes(q2, g, t, dec)
  {
    SameFields(q1, q2);
  }

  /** Queries that differ only in their skill rows agree on every other field. */
  lemma SameFields(q1: Query, q2: Query)
    requires q1.(skillsRows := q2.skillsRows) == q2
    ensures q1.occupation == q2.occupation && q1.speciality == q2.speciality
    ensures q1.selectedSpecs == q2.selectedSpecs && q1.selectedLangs == q2.selectedLangs
    ensures q1.workType == q2.workType && q1.workplaceType == q2.workplaceType
    ensures q1.salaryRange == q2.salaryRange && q1.location == q2.location
  {
  }

  // ---- the handlers that edit the filter state ----

  /** The specialty checkbox and the language button (lines 239-244, 300-306):
      remove the value if selected, append it otherwise. */
  function Toggle(selected: seq<string>, x: string): seq<string>
  {
    if x in selected then Filter(selected, (s: string) => s != x) else selected + [x]
  }

  /** After a toggle `x` is selected exactly when it was not before; nothing
      else changes membership. */
  lemma ToggleMembership(selected: seq<string>, x: string, y: string)
    ensures y in Toggle(selected, x) <==> if y == x then x !in selected else y in selected
  {
  }

  /** Toggling an unselected value twice restores the selection exactly. */
  lemma ToggleTwiceUnselected(selected: seq<string>, x: string)
    requires x !in selected
    ensures Toggle(Toggle(selected, x), x) == selected
  {
    FilterAppend(selected, [x], (s: string) => s != x);
    FilterAllPass(selected, (s: string) => s != x);
  }

  /** Toggling a selected value twice restores the set of selected values
      (the value moves to the end of the list). */
  lemma ToggleTwiceSelected(selected: seq<string>, x: string)
    requires x in selected
    ensures forall y :: y in Toggle(Toggle(selected, x), x) <==> y in selected
    ensures Toggle(Toggle(selected, x), x) == Filter(selected, (s: string) => s != x) + [x]
  {
  }

  /** Every toggle keeps a duplicate-free selection duplicate-free. */
  predicate NoDuplicates(xs: seq<string>)
  {
    forall i, j :: 0 <= i < j < |xs| ==> xs[i] != xs[j]
  }

  lemma {:induction false} FilterKeepsNoDuplicates(xs: seq<string>, x: string)
    requires NoDuplicates(xs)
    ensures NoDuplicates(Filter(xs, (s: string) => s != x))
  {
    if xs != [] {
      FilterKeepsNoDuplicates(xs[1..], x);
      assert xs[0] !in xs[1..];
    }
  }

  lemma ToggleKeepsNoDuplicates(selected: seq<string>, x: string)
    requires NoDuplicates(selected)
    ensures NoDuplicates(Toggle(selected, x))
  {
    if x in selected {
      FilterKeepsNoDuplicates(selected, x);
    }
  }

  /** The employment-type and workplace-type buttons (lines 392, 411):
      pressing the current choice clears it, any other button selects it. */
  function ToggleChoice(current: string, choice: string): (r: string)
    requires choice != ""
    ensures r == "" <==> current == choice
    ensures r != "" ==> r == choice
  {
    if current == choice then "" else choice
  }

  /** Two presses of the same button restore a choice that was clear or was
      that button. */
  lemma ToggleChoiceTwice(current: string, choice: string)
    requires choice != ""
    requires current == "" || current == choice
    ensures ToggleChoice(ToggleChoice(current, choice), choice) == current
  {
  }

  /** Editing the skill text of the row with id `id` (lines 328-334). */
  function SetRowSkill(rows: seq<SkillRow>, id: int, value: string): (r: seq<SkillRow>)
    ensures |r| == |rows|
    ensures forall i :: 0 <= i < |rows| ==>
      r[i].id == rows[i].id && r[i].experience == rows[i].experience && r[i].isDefault == rows[i].isDefault
      && r[i].skill == (if rows[i].id == id then value else rows[i].skill)
  {
    seq(|rows|, i requires 0 <= i < |rows| => if rows[i].id == id then rows[i].(skill := value) else rows[i])
  }

  /** Editing the minimum years of the row with id `id` (lines 347-353). */
  function SetRowExperience(rows: seq<SkillRow>, id: int, value: string): (r: seq<SkillRow>)
    ensures |r| == |rows|
    ensures forall i :: 0 <= i < |rows| ==>
      r[i].id == rows[i].id && r[i].skill == rows[i].skill && r[i].isDefault == rows[i].isDefault
      && r[i].experience == (if rows[i].id == id then value else rows[i].experience)
  {
    seq(|rows|, i requires 0 <= i < |rows| => if rows[i].id == id then rows[i].(experience := value) else rows[i])
  }

  /** Editing a row's minimum years never changes which rows take part. */
  lemma {:induction false} SetRowExperienceKeepsActiveRows(rows: seq<SkillRow>, id: int, value: string)
    ensures |ActiveRows(SetRowExperience(rows, id, value))| == |ActiveRows(rows)|
  {
    if rows != [] {
      var r := SetRowExperience(rows, id, value);
      SetRowExperienceKeepsActiveRows(rows[1..], id, value);
      assert r[1..] == SetRowExperience(rows[1..], id, value);
    }
  }

  /** The "Add skill" button (lines 364-368): a new blank row, keyed by the
      current time. */
  function AddSkillRow(rows: seq<SkillRow>, now: int): (r: seq<SkillRow>)
    ensures |r| == |rows| + 1 && r[..|rows|] == rows
    ensures r[|rows|].id == now && Trim(r[|rows|].skill) == ""
  {
    rows + [SkillRow(now, "", "", false)]
  }

  /** Adding a row leaves the search result unchanged until it is filled in. */
  lemma AddSkillRowKeepsResult(q: Query, now: int, ts: seq<Talent>, dec: Decoders)
    ensures Evaluate(q.(skillsRows := AddSkillRow(q.skillsRows, now)), ts, dec) == Evaluate(q, ts, dec)
  {
    BlankRowIgnored(q, SkillRow(now, "", "", false), ts, dec);
  }

  // ---- the specialty checkboxes ----

  /** `allTalents.map(t => t.specialty).filter(Boolean)`. */
  function Specialties(ts: seq<Talent>): (r: seq<string>)
    ensures forall s :: s in r <==> s != "" && exists t :: t in ts && t.specialty == Some(s)
  {
    if ts == [] then []
    else
      var rest := Specialties(ts[1..]);
      assert forall t :: t in ts <==> t == ts[0] || t in ts[1..];
      match ts[0].specialty
      case Some(s) => if s != "" then [s] + rest else rest
      case None => rest
  }

  /** `[...new Set(xs)]`: the distinct values of `xs` in first-occurrence order. */
  function Distinct(xs: seq<string>): (r: seq<string>)
    ensures NoDuplicates(r)
    ensures forall s :: s in r <==> s in xs
  {
    if xs == [] then []
    else
      var init := Distinct(xs[..|xs| - 1]);
      assert forall s :: s in xs <==> s in xs[..|xs| - 1] || s == xs[|xs| - 1];
      if xs[|xs| - 1] in init then init else init + [xs[|xs| - 1]]
  }

  /** The specialties offered as checkboxes (line 234): each non-empty
      specialty of some talent, once. */
  function SpecialtyOptions(ts: seq<Talent>): (r: seq<string>)
    ensures NoDuplicates(r)
    ensures forall s :: s in r <==> s != "" && exists t :: t in ts && t.specialty == Some(s)
  {
    Distinct(Specialties(ts))
  }

  /** The specialty read from one talent, when it is truthy. */
  function SpecialtyOf(t: Talent): seq<string>
  {
    if t.specialty.Some? && t.specialty.value != "" then [t.specialty.value] else []
  }

  /** `map` and `filter` work talent by talent: the specialties of two lists
      are those of the first followed by those of the second. */
  lemma {:induction false} SpecialtiesAppend(a: seq<Talent>, b: seq<Talent>)
    ensures Specialties(a + b) == Specialties(a) + Specialties(b)
  {
    if a == [] {
      assert a + b == b;
    } else {
      assert (a + b)[0] == a[0] && (a + b)[1..] == a[1..] + b;
      SpecialtiesAppend(a[1..], b);
    }
  }

  /** One more talent adds its own specialty, if truthy, at the end. */
  lemma SpecialtiesSnoc(ts: seq<Talent>, t: Talent)
    ensures Specialties(ts + [t]) == Specialties(ts) + SpecialtyOf(t)
  {
    SpecialtiesAppend(ts, [t]);
    assert [t][1..] == [];
  }

  /** The index of the first occurrence of `s` in `xs`. */
  function FirstIndex(xs: seq<string>, s: string): (r: nat)
    requires s in xs
    ensures r < |xs| && xs[r] == s
    ensures forall k :: 0 <= k < r ==> xs[k] != s
  {
    if xs[0] == s then 0 else 1 + FirstIndex(xs[1..], s)
  }

  /** Appending a value does not move the first occurrence of one already present. */
  lemma FirstIndexOfPrefix(init: seq<string>, x: string, s: string)
    requires s in init
    ensures s in init + [x] && FirstIndex(init + [x], s) == FirstIndex(init, s)
  {
    var ys := init + [x];
    var k := FirstIndex(init, s);
    assert ys[k] == s;
  }

  /** `new Set` lists its values in the order in which they first occur:
      an earlier entry of the result first occurs earlier in the input. */
  lemma {:induction false} DistinctKeepsFirstOccurrenceOrder(xs: seq<string>, i: int, j: int)
    requires 0 <= i < j < |Distinct(xs)|
    ensures Distinct(xs)[i] in xs && Distinct(xs)[j] in xs
    ensures FirstIndex(xs, Distinct(xs)[i]) < FirstIndex(xs, Distinct(xs)[j])
  {
    var n := |xs|;
    var init := xs[..n - 1];
    var x := xs[n - 1];
    assert xs == init + [x];
    var d := Distinct(init);
    var a := Distinct(xs)[i];
    var b := Distinct(xs)[j];
    if j < |d| {
      assert a == d[i] && b == d[j];
      DistinctKeepsFirstOccurrenceOrder(init, i, j);
      FirstIndexOfPrefix(init, x, a);
      FirstIndexOfPrefix(init, x, b);
    } else {
      assert x !in d && Distinct(xs) == d + [x];
      assert a == d[i] && b == x;
      assert a in init;
      FirstIndexOfPrefix(init, x, a);
      assert x !in init;
      assert FirstIndex(xs, x) == n - 1;
    }
  }

  /** The distinct values are an order-preserving selection of the input. */
  lemma {:induction false} DistinctIsSubsequence(xs: seq<string>)
    ensures IsSubsequence(Distinct(xs), xs)
  {
    if xs != [] {
      var init := xs[..|xs| - 1];
      DistinctIsSubsequence(init);
      SubsequenceOfPrefix(Distinct(init), init, xs[|xs| - 1]);
      assert init + [xs[|xs| - 1]] == xs;
    }
  }

  lemma {:induction false} SubsequenceOfPrefix(r: seq<string>, s: seq<string>, x: string)
    ensures IsSubsequence(r, s) ==> IsSubsequence(r, s + [x])
    ensures IsSubsequence(r, s) ==> IsSubsequence(r + [x], s + [x])
    decreases |s|
  {
    if r != [] && s != [] {
      assert (s + [x])[1..] == s[1..] + [x];
      assert (r + [x])[1..] == r[1..] + [x];
      SubsequenceOfPrefix(r[1..], s[1..], x);
      SubsequenceOfPrefix(r, s[1..], x);
    } else if r == [] && s != [] {
      assert (s + [x])[1..] == s[1..] + [x];
      SubsequenceOfPrefix(r, s[1..], x);
    } else if r == [] {
      assert ([] + [x])[1..] == [];
    }
  }
}
