/** The talent profile page of the company portal
    (src/Company/Talen/TalentDetail.jsx): the skill chips, the phone number
    used for call and chat links, and the alert the company sends. */
module TalentProfile {
  import opened Seqs
  import opened Text
  import opened Records
  import JobMatcher

  // ---- skills ----

  /** `talent.skils || talent.skills`. */
  function RawSkills(t: Talent): (r: Raw<SkillEntry>)
    ensures Truthy(t.skils) ==> r == t.skils
    ensures !Truthy(t.skils) ==> r == t.skills
  {
    if Truthy(t.skils) then t.skils else t.skills
  }

  /** `getSkillsArray` (lines 133-137): an array is used as it is, a falsy
      value reads as `"[]"`, text is parsed and unparseable text gives `[]`.
      `None` stands for a value that is not an array: text holding some other
      JSON value, or a number or object, which `JSON.parse` does not turn into
      a list. */
  function GetSkillsArray(t: Talent, decode: Decoder<SkillEntry>): (r: Option<seq<SkillEntry>>)
    ensures RawSkills(t).Items? ==> r == Some(RawSkills(t).items)
    ensures !Truthy(RawSkills(t)) ==> r == Some([])
    ensures RawSkills(t).Text? && RawSkills(t).text != "" ==>
      r == match decode(RawSkills(t).text)
           case ParsedList(xs) => Some(xs)
           case Malformed => Some([])
           case ParsedOther => None
  {
    var raw := RawSkills(t);
    if raw.Items? then Some(raw.items)
    else if !Truthy(raw) then Some([])
    else
      match raw
      case Text(s) =>
        (match decode(s)
         case ParsedList(xs) => Some(xs)
         case Malformed => Some([])
         case ParsedOther => None)
      case _ => None
  }

  /** The profile page and the job page read a talent's `skils` alike: when
      `skils` is set and is an array, or text that parses to an array or not
      at all, both give the same list. */
  lemma SkillsAgreeWithJobPage(t: Talent, decode: Decoder<SkillEntry>)
    requires Truthy(t.skils)
    requires t.skils.Items? || (t.skils.Text? && !decode(t.skils.text).ParsedOther?)
    ensures GetSkillsArray(t, decode) == Some(JobMatcher.ParseTalentSkills(t.skils, decode))
  {
  }

  /** Where the two pages part: for a truthy `skils` that is neither an array
      nor text parsing to an array or failing to parse, the profile page has
      no list while the job page reads `[]`. */
  lemma SkillsDifferFromJobPage(t: Talent, decode: Decoder<SkillEntry>)
    requires Truthy(t.skils)
    requires !(t.skils.Items? || (t.skils.Text? && !decode(t.skils.text).ParsedOther?))
    ensures GetSkillsArray(t, decode).None?
    ensures JobMatcher.ParseTalentSkills(t.skils, decode) == []
  {
  }

  /** The text of a skill chip (line 275): for an object `skill.skill ||
      skill.name`, for a bare string the string itself. `None` is an absent
      name, which renders as nothing. */
  function SkillLabel(e: SkillEntry): (r: Option<string>)
    ensures e.SkillText? ==> r == Some(e.text)
    ensures e.SkillObject? && HasText(e.skill) ==> r == e.skill
    ensures e.SkillObject? && !HasText(e.skill) ==> r == e.name
  {
    match e
    case SkillObject(skill, name, _) => if HasText(skill) then skill else name
    case SkillText(text) => Some(text)
  }

  // ---- phone ----

  /** The characters `/[^\d+]/g` keeps: ASCII digits and '+'. */
  predicate IsDialChar(c: char)
  {
    IsDigit(c) || c == '+'
  }

  /** `talent.phone || talent.phone_number || ""`. */
  function PhoneSource(t: Talent): (r: string)
    ensures HasText(t.phone) ==> r == t.phone.value
    ensures !HasText(t.phone) && HasText(t.phoneNumber) ==> r == t.phoneNumber.value
    ensures !HasText(t.phone) && !HasText(t.phoneNumber) ==> r == ""
  {
    if HasText(t.phone) then t.phone.value
    else if HasText(t.phoneNumber) then t.phoneNumber.value
    else ""
  }

  /** `s.replace(/[^\d+]/g, "")`: the digits and plus signs of `s`, in order. */
  function DialChars(s: string): (r: string)
    ensures forall i :: 0 <= i < |r| ==> IsDialChar(r[i])
    ensures IsSubsequence(r, s)
    ensures |r| <= |s|
  {
    FilterIsSubsequence(s, IsDialChar);
    Filter(s, IsDialChar)
  }

  /** `cleanPhone` (line 143). */
  function CleanPhone(t: Talent): string
  {
    DialChars(PhoneSource(t))
  }

  /** Every digit and plus sign of the source survives, as often as it occurs. */
  lemma {:induction false} DialCharsKeepsCounts(s: string, c: char)
    requires IsDialChar(c)
    ensures multiset(DialChars(s))[c] == multiset(s)[c]
  {
    if s != [] {
      DialCharsKeepsCounts(s[1..], c);
      FilterCons(s[0], s[1..], IsDialChar);
      assert [s[0]] + s[1..] == s;
    }
  }

  /** Nothing but a non-dial character is dropped. */
  lemma {:induction false} DialCharsDropsOnlyOthers(s: string)
    ensures |s| - |DialChars(s)| == |Filter(s, (c: char) => !IsDialChar(c))|
  {
    FilterPartition(s, IsDialChar, (c: char) => !IsDialChar(c));
  }

  /** Cleaning a cleaned number changes nothing. */
  lemma CleanIdempotent(s: string)
    ensures DialChars(DialChars(s)) == DialChars(s)
  {
    FilterAllPass(DialChars(s), IsDialChar);
  }

  /** Cleaning works piece by piece. */
  lemma CleanConcat(a: string, b: string)
    ensures DialChars(a + b) == DialChars(a) + DialChars(b)
  {
    FilterAppend(a, b, IsDialChar);
  }

  // ---- the alert ----

  /** The alert form `{title, message, type}`. */
  datatype AlertForm = AlertForm(title: string, message: string, kind: string)

  /** The body posted to the notifications endpoint (lines 49-57). */
  datatype AlertPayload = AlertPayload(
    talentId: int,
    jobId: Option<int>,
    title: string,
    message: string,
    kind: string,
    isRead: bool,
    sentToTelegram: bool)

  const FallbackTitle := "Opportunity Alert"

  /** The title the form is given once the talent loads (line 36):
      `${data.occupation || ""} - New Opportunity!`. */
  function DefaultAlertTitle(occupation: Option<string>): (r: string)
    ensures HasText(occupation) ==> occupation.value <= r
    ensures |r| >= |" - New Opportunity!"|
    ensures r[|r| - |" - New Opportunity!"|..] == " - New Opportunity!"
    ensures HasText(occupation) ==> |r| == |occupation.value| + |" - New Opportunity!"|
    ensures !HasText(occupation) ==> r == " - New Opportunity!"
  {
    (if HasText(occupation) then occupation.value else "") + " - New Opportunity!"
  }

  /** The payload of `handleSendAlert`; `pageId` is `Number(id)` of the route. */
  function BuildAlert(pageId: int, form: AlertForm): (r: AlertPayload)
    ensures r.talentId == pageId && r.jobId.None? && !r.isRead && !r.sentToTelegram
    ensures r.title == if form.title != "" then form.title else FallbackTitle
    ensures r.message == form.message && r.kind == form.kind
  {
    AlertPayload(pageId, None, if form.title != "" then form.title else FallbackTitle,
      form.message, form.kind, false, false)
  }

  /** An alert always carries a title. */
  lemma AlertTitleNeverEmpty(pageId: int, form: AlertForm)
    ensures BuildAlert(pageId, form).title != ""
  {
  }

  /** With the pre-filled title the fallback never applies. */
  lemma PrefilledTitleKept(pageId: int, occupation: Option<string>, message: string, kind: string)
    ensures BuildAlert(pageId, AlertForm(DefaultAlertTitle(occupation), message, kind)).title
      == DefaultAlertTitle(occupation)
  {
  }
}
