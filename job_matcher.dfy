/** The job detail page of the company portal
    (src/Company/JobDetail/JobDetailPage.jsx): which applications belong to
    the job, how the job's skills are read and written back by the edit form,
    and which talents are suggested as matches. */
module JobMatcher {
  import opened Seqs
  import opened Text
  import opened Records

  // ---- the applications of this job ----

  /** The application is for job `pageId` and has not been rejected. */
  predicate Kept(a: Application, pageId: int)
  {
    a.jobId == Some(pageId) && a.status != "rejected"
  }

  /** `appsData.filter(app => Number(app.job_id) === Number(id) && app.status !== 'rejected')`
      (lines 52-54). */
  function KeptApplications(apps: seq<Application>, pageId: int): (r: seq<Application>)
    ensures forall a :: a in r <==> a in apps && a.jobId == Some(pageId) && a.status != "rejected"
    ensures IsSubsequence(r, apps)
    ensures forall a :: multiset(r)[a] == if a.jobId == Some(pageId) && a.status != "rejected" then multiset(apps)[a] else 0
  {
    FilterIsSubsequence(apps, (a: Application) => Kept(a, pageId));
    FilterCounts(apps, (a: Application) => Kept(a, pageId));
    Filter(apps, (a: Application) => Kept(a, pageId))
  }

  /** An application whose job id is NaN equals no page id, so it is dropped. */
  lemma UnnumberedJobDropped(apps: seq<Application>, pageId: int, a: Application)
    requires a.jobId.None?
    ensures a !in KeptApplications(apps, pageId)
  {
  }

  // ---- the job's skills ----

  /** `pieces.map(s => s.trim())`. */
  function TrimAll(pieces: seq<string>): (r: seq<string>)
    ensures |r| == |pieces|
    ensures forall i :: 0 <= i < |r| ==> r[i] == Trim(pieces[i])
  {
    seq(|pieces|, i requires 0 <= i < |pieces| => Trim(pieces[i]))
  }

  /** `pieces.filter(s => s !== "")`. */
  function NonEmpty(pieces: seq<string>): seq<string>
  {
    Filter(pieces, (s: string) => s != "")
  }

  /** `text.split(',').map(s => s.trim()).filter(s => s !== "")`. */
  function SkillList(text: string): (r: seq<string>)
    ensures forall i :: 0 <= i < |r| ==> r[i] != "" && IsTrimmed(r[i])
  {
    var pieces := TrimAll(Split(text, ','));
    NonEmptyTrimmed(pieces);
    NonEmpty(pieces)
  }

  lemma NonEmptyKeepsAll(pieces: seq<string>)
    requires forall i :: 0 <= i < |pieces| ==> pieces[i] != ""
    ensures NonEmpty(pieces) == pieces
  {
    FilterAllPass(pieces, (s: string) => s != "");
  }

  lemma NonEmptyTrimmed(pieces: seq<string>)
    requires forall i :: 0 <= i < |pieces| ==> IsTrimmed(pieces[i])
    ensures forall i :: 0 <= i < |NonEmpty(pieces)| ==> NonEmpty(pieces)[i] != "" && IsTrimmed(NonEmpty(pieces)[i])
  {
    var r := NonEmpty(pieces);
    forall i | 0 <= i < |r| ensures IsTrimmed(r[i]) {
      assert r[i] in pieces;
    }
  }

  /** `getJobSkills` (lines 156-162): a comma-separated string is split,
      trimmed and cleared of empty pieces, an array is returned as it is, and
      an absent job, a falsy `skils` or a value of any other type gives `[]`. */
  function GetJobSkills(job: Option<Job>): (r: seq<string>)
    ensures job.None? ==> r == []
    ensures job.Some? && !Truthy(job.value.skils) ==> r == []
    ensures job.Some? && job.value.skils.Items? ==> r == job.value.skils.items
    ensures job.Some? && job.value.skils.Scalar? ==> r == []
    ensures job.Some? && job.value.skils.Text? && job.value.skils.text != "" ==> r == SkillList(job.value.skils.text)
  {
    match job
    case None => []
    case Some(j) =>
      if !Truthy(j.skils) then []
      else
        match j.skils
        case Text(s) => SkillList(s)
        case Items(xs) => xs
        case _ => []
  }

  /** The `skils` text the edit form starts with (line 63): an array is joined
      with ", ", any other value is copied with `|| ""`. `None` stands for a
      truthy value that is neither a string nor an array, which the form
      copies as it is. */
  function EditFormSkills(skils: Raw<string>): (r: Option<string>)
    ensures skils.Items? ==> r == Some(Join(skils.items, ", "))
    ensures !Truthy(skils) ==> r == Some("")
    ensures skils.Text? ==> r == Some(skils.text)
    ensures r.None? <==> skils.Scalar? && skils.truthy
  {
    match skils
    case Items(xs) => Some(Join(xs, ", "))
    case Text(s) => Some(s)
    case Missing => Some("")
    case Scalar(truthy) => if truthy then None else Some("")
  }

  /** Each piece but the first preceded by one space. */
  function Spaced(xs: seq<string>): (r: seq<string>)
    ensures |r| == |xs|
    ensures forall i :: 0 <= i < |xs| ==> r[i] == if i == 0 then xs[i] else " " + xs[i]
  {
    seq(|xs|, i requires 0 <= i < |xs| => if i == 0 then xs[i] else " " + xs[i])
  }

  /** Every piece preceded by one space. */
  function Prefixed(xs: seq<string>): (r: seq<string>)
    ensures |r| == |xs|
    ensures forall i :: 0 <= i < |xs| ==> r[i] == " " + xs[i]
  {
    seq(|xs|, i requires 0 <= i < |xs| => " " + xs[i])
  }

  /** Where the space after a comma is attached does not change the text. */
  lemma SpaceAfterComma(head: string, rest: string)
    ensures head + "," + (" " + rest) == head + ", " + rest
  {
  }

  lemma {:induction false} JoinPrefixed(xs: seq<string>)
    requires xs != []
    ensures Join(Prefixed(xs), ",") == " " + Join(xs, ", ")
  {
    if |xs| > 1 {
      var px := Prefixed(xs);
      var rest := Join(xs[1..], ", ");
      assert px[1..] == Prefixed(xs[1..]);
      JoinPrefixed(xs[1..]);
      SpaceAfterComma(" " + xs[0], rest);
      SpaceAfterComma(xs[0], rest);
      assert " " + xs[0] + ", " + rest == " " + (xs[0] + ", " + rest);
    }
  }

  /** Joining with ", " is joining the spaced pieces with ",". */
  lemma JoinSpaced(xs: seq<string>)
    requires xs != []
    ensures Join(xs, ", ") == Join(Spaced(xs), ",")
  {
    if |xs| > 1 {
      var sp := Spaced(xs);
      var rest := Join(xs[1..], ", ");
      assert sp[0] == xs[0];
      assert sp[1..] == Prefixed(xs[1..]);
      JoinPrefixed(xs[1..]);
      SpaceAfterComma(xs[0], rest);
    }
  }

  lemma SpacedCommaFree(xs: seq<string>)
    requires forall i :: 0 <= i < |xs| ==> ',' !in xs[i]
    ensures forall i :: 0 <= i < |Spaced(xs)| ==> ',' !in Spaced(xs)[i]
  {
    var spaced := Spaced(xs);
    forall i | 0 <= i < |spaced| ensures ',' !in spaced[i] {
      if i > 0 {
        assert spaced[i] == [' '] + xs[i];
      }
    }
  }

  lemma TrimSpaced(xs: seq<string>)
    requires forall i :: 0 <= i < |xs| ==> IsTrimmed(xs[i])
    ensures TrimAll(Spaced(xs)) == xs
  {
    var spaced := Spaced(xs);
    forall i | 0 <= i < |xs| ensures Trim(spaced[i]) == xs[i] {
      if i == 0 {
        TrimmedIsFixed(xs[i]);
      } else {
        TrimLeadingSpace(xs[i]);
      }
    }
  }

  /** Reading back the text `join(", ")` made from non-empty, trimmed,
      comma-free skills gives those skills. */
  lemma SkillListOfJoined(xs: seq<string>)
    requires xs != []
    requires forall i :: 0 <= i < |xs| ==> xs[i] != "" && IsTrimmed(xs[i]) && ',' !in xs[i]
    ensures SkillList(Join(xs, ", ")) == xs
  {
    JoinSpaced(xs);
    SpacedCommaFree(xs);
    SplitJoin(Spaced(xs), ',');
    TrimSpaced(xs);
    NonEmptyKeepsAll(xs);
  }

  /** Saving the edit form's text and reading it back with `getJobSkills`
      returns the job's skill array, provided every skill is non-empty,
      already trimmed and free of commas. */
  lemma EditFormRoundTrip(j: Job, xs: seq<string>)
    requires j.skils == Items(xs)
    requires forall i :: 0 <= i < |xs| ==> xs[i] != "" && IsTrimmed(xs[i]) && ',' !in xs[i]
    ensures EditFormSkills(j.skils).Some?
    ensures GetJobSkills(Some(j.(skils := Text(EditFormSkills(j.skils).value)))) == xs
  {
    if xs != [] {
      SkillListOfJoined(xs);
    }
  }

  // ---- the talents' skills ----

  /** `parseTalentSkills` (lines 148-154): never throws. A falsy value, text
      that does not parse, and a parse result or value that is not an array
      all give `[]`. */
  function ParseTalentSkills(raw: Raw<SkillEntry>, decode: Decoder<SkillEntry>): (r: seq<SkillEntry>)
    ensures !Truthy(raw) ==> r == []
    ensures raw.Items? ==> r == raw.items
    ensures raw.Scalar? ==> r == []
    ensures raw.Text? && raw.text != "" ==>
      r == (if decode(raw.text).ParsedList? then decode(raw.text).items else [])
  {
    if !Truthy(raw) then []
    else
      match raw
      case Text(s) => (match decode(s) case ParsedList(xs) => xs case _ => [])
      case Items(xs) => xs
      case _ => []
  }

  /** `getInitials` (lines 142-146): the upper-cased first letter of each
      present name, or "?" when neither name is present. */
  function GetInitials(firstName: Option<string>, lastName: Option<string>): (r: string)
    ensures 1 <= |r| <= 2
    ensures !HasText(firstName) && !HasText(lastName) ==> r == "?"
    ensures HasText(firstName) ==> r[0] == UpperChar(firstName.value[0])
    ensures HasText(firstName) && HasText(lastName) ==> r == [UpperChar(firstName.value[0]), UpperChar(lastName.value[0])]
    ensures !HasText(firstName) && HasText(lastName) ==> r == [UpperChar(lastName.value[0])]
  {
    var f := if HasText(firstName) then [UpperChar(firstName.value[0])] else "";
    var l := if HasText(lastName) then [UpperChar(lastName.value[0])] else "";
    if f + l == "" then "?" else f + l
  }

  // ---- the suggested talents ----

  /** `applications.some(app => Number(app.talent_id) === Number(talent.id))`. */
  predicate AlreadyApplied(kept: seq<Application>, t: Talent)
  {
    exists a :: a in kept && a.talentId == Some(t.id)
  }

  /** `jobSkillsArr.includes(ts.skill?.toLowerCase())`: only an object entry
      with a `skill` name can match, and only by equality. */
  predicate SkillMatches(ts: SkillEntry, jobSkillsLower: seq<string>)
  {
    ts.SkillObject? && ts.skill.Some? && Lower(ts.skill.value) in jobSkillsLower
  }

  /** `getJobSkills().map(s => s.toLowerCase())`. */
  function LowerAll(xs: seq<string>): (r: seq<string>)
    ensures |r| == |xs|
    ensures forall i :: 0 <= i < |xs| ==> r[i] == Lower(xs[i])
  {
    seq(|xs|, i requires 0 <= i < |xs| => Lower(xs[i]))
  }

  /** The test `matchedTalents` applies to one talent (lines 171-177). */
  predicate IsMatch(job: Option<Job>, kept: seq<Application>, t: Talent, decode: Decoder<SkillEntry>)
  {
    && job.Some? && Truthy(job.value.skils)
    && !AlreadyApplied(kept, t)
    && exists ts :: ts in ParseTalentSkills(t.skils, decode) && SkillMatches(ts, LowerAll(GetJobSkills(job)))
  }

  /** `matchedTalents` (lines 170-178), given the kept applications. */
  function MatchedTalents(job: Option<Job>, talents: seq<Talent>, kept: seq<Application>,
                          decode: Decoder<SkillEntry>): (r: seq<Talent>)
    ensures IsSubsequence(r, talents)
    ensures forall t :: t in r <==> t in talents && IsMatch(job, kept, t, decode)
    ensures forall t :: multiset(r)[t] == if IsMatch(job, kept, t, decode) then multiset(talents)[t] else 0
  {
    FilterIsSubsequence(talents, (t: Talent) => IsMatch(job, kept, t, decode));
    FilterCounts(talents, (t: Talent) => IsMatch(job, kept, t, decode));
    Filter(talents, (t: Talent) => IsMatch(job, kept, t, decode))
  }

  /** Without a job, or with a job whose `skils` is falsy, nobody is matched. */
  lemma NoSkillsNoMatches(job: Option<Job>, talents: seq<Talent>, kept: seq<Application>,
                          decode: Decoder<SkillEntry>)
    requires job.None? || !Truthy(job.value.skils)
    ensures MatchedTalents(job, talents, kept, decode) == []
  {
  }

  /** A talent holding an application for this job that is not rejected
      (pending or accepted) is never suggested, whatever its skills. */
  lemma AppliedNeverMatched(job: Option<Job>, talents: seq<Talent>, apps: seq<Application>,
                            pageId: int, decode: Decoder<SkillEntry>, a: Application, t: Talent)
    requires a in apps && a.jobId == Some(pageId) && a.status != "rejected" && a.talentId == Some(t.id)
    ensures t !in MatchedTalents(job, talents, KeptApplications(apps, pageId), decode)
  {
    assert a in KeptApplications(apps, pageId);
  }

  /** Only a live application for this job keeps its talent out of the
      suggestions: one that was rejected, or one for another job, does not. */
  lemma RejectedDoesNotBlock(apps: seq<Application>, pageId: int, t: Talent)
    requires forall a :: a in apps && a.talentId == Some(t.id) && a.jobId == Some(pageId) ==> a.status == "rejected"
    ensures !AlreadyApplied(KeptApplications(apps, pageId), t)
  {
  }

  /** A lower-cased name is among the lower-cased skills exactly when it
      equals, ignoring case, one of the skills. */
  lemma InLowerAll(name: string, xs: seq<string>)
    ensures Lower(name) in LowerAll(xs) <==> exists x :: x in xs && Lower(x) == Lower(name)
  {
    var lowered := LowerAll(xs);
    if Lower(name) in lowered {
      var i :| 0 <= i < |lowered| && lowered[i] == Lower(name);
      assert xs[i] in xs;
    }
    if exists x :: x in xs && Lower(x) == Lower(name) {
      var x :| x in xs && Lower(x) == Lower(name);
      var i :| 0 <= i < |xs| && xs[i] == x;
      assert lowered[i] == Lower(name);
    }
  }

  /** Any other talent is suggested exactly when one of its parsed skill
      names equals, ignoring case, one of the job's skills. */
  lemma MatchedIffSharedSkill(job: Job, talents: seq<Talent>, kept: seq<Application>,
                              decode: Decoder<SkillEntry>, t: Talent)
    requires Truthy(job.skils) && t in talents && !AlreadyApplied(kept, t)
    ensures t in MatchedTalents(Some(job), talents, kept, decode) <==>
      exists ts, x :: ts in ParseTalentSkills(t.skils, decode) && x in GetJobSkills(Some(job))
        && ts.SkillObject? && ts.skill.Some? && Lower(ts.skill.value) == Lower(x)
  {
    var xs := GetJobSkills(Some(job));
    var parsed := ParseTalentSkills(t.skils, decode);
    if t in MatchedTalents(Some(job), talents, kept, decode) {
      var ts :| ts in parsed && SkillMatches(ts, LowerAll(xs));
      InLowerAll(ts.skill.value, xs);
      var x :| x in xs && Lower(x) == Lower(ts.skill.value);
      assert ts in parsed && x in xs && ts.SkillObject? && ts.skill.Some? && Lower(ts.skill.value) == Lower(x);
    }
    if exists ts, x :: ts in parsed && x in xs && ts.SkillObject? && ts.skill.Some? && Lower(ts.skill.value) == Lower(x) {
      var ts, x :| ts in parsed && x in xs && ts.SkillObject? && ts.skill.Some? && Lower(ts.skill.value) == Lower(x);
      InLowerAll(ts.skill.value, xs);
      assert SkillMatches(ts, LowerAll(xs));
      assert IsMatch(Some(job), kept, t, decode);
    }
  }

  /** The match is equality, not containment: a job asking for "React" does
      not suggest a talent whose only skill is "React Native". One instance
      of `MatchedIffSharedSkill`, which states the test for every name. */
  lemma ContainmentIsNoMatch(job: Job, t: Talent, decode: Decoder<SkillEntry>)
    requires job.skils == Items(["React"])
    requires t.skils == Items([SkillObject(Some("React Native"), None, "")])
    ensures MatchedTalents(Some(job), [t], [], decode) == []
  {
    assert Lower("React Native") != Lower("React") by {
      assert |Lower("React Native")| != |Lower("React")|;
    }
  }

  /** Talent-side names are not trimmed: " react" does not match "React".
      One instance of `MatchedIffSharedSkill`, which compares the lower-cased
      names exactly as they are stored. */
  lemma UntrimmedTalentSkillIsNoMatch(job: Job, t: Talent, decode: Decoder<SkillEntry>)
    requires job.skils == Items(["React"])
    requires t.skils == Items([SkillObject(Some(" react"), None, "")])
    ensures MatchedTalents(Some(job), [t], [], decode) == []
  {
    assert Lower(" react") != Lower("React") by {
      assert |Lower(" react")| != |Lower("React")|;
    }
  }
}
