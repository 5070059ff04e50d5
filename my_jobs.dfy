/** The company's job list (src/Company/MyJobs/MyJobs.jsx): loading the
    jobs, expanding and collapsing descriptions, the date line and the logo
    placeholder. */
module MyJobs {
  import opened Text
  import opened Records

  // ---- expand / collapse ----

  /** `!!expanded[id]`: a key never set reads as `undefined`, which is falsy. */
  predicate Flag(expanded: map<int, bool>, id: int)
  {
    id in expanded && expanded[id]
  }

  /** `{ ...prev, [id]: !prev[id] }` (line 46). */
  function Toggled(expanded: map<int, bool>, id: int): (r: map<int, bool>)
    ensures id in r && r[id] == !Flag(expanded, id)
    ensures forall k :: k != id ==> (k in r <==> k in expanded)
    ensures forall k :: k != id && k in expanded ==> r[k] == expanded[k]
  {
    expanded[id := !Flag(expanded, id)]
  }

  /** Two toggles of the same job restore whether it is expanded, and leave
      every other job as it was. */
  lemma ToggleTwice(expanded: map<int, bool>, id: int)
    ensures Flag(Toggled(Toggled(expanded, id), id), id) == Flag(expanded, id)
    ensures forall k :: k != id ==> Flag(Toggled(Toggled(expanded, id), id), k) == Flag(expanded, k)
  {
  }

  /** Toggling one job never changes whether another is expanded. */
  lemma ToggleIsolated(expanded: map<int, bool>, id: int, other: int)
    requires other != id
    ensures Flag(Toggled(expanded, id), other) == Flag(expanded, other)
  {
  }

  // ---- the description ----

  const PreviewLength := 150

  /** `job.description || ""` (line 105). */
  function DescriptionText(job: Job): (r: string)
    ensures job.description.Some? ==> r == job.description.value
    ensures job.description.None? ==> r == ""
  {
    job.description.GetOr("")
  }

  /** `descriptionText.slice(0, 150) + "..."` (line 144): the ellipsis is added
      whatever the length. */
  function Collapsed(text: string): (r: string)
    ensures |text| <= PreviewLength ==> r == text + "..."
    ensures |text| > PreviewLength ==> r == text[..PreviewLength] + "..."
  {
    (if |text| <= PreviewLength then text else text[..PreviewLength]) + "..."
  }

  /** The show-more/show-less control is rendered only for long texts (line 145). */
  predicate ShowsToggle(text: string)
  {
    |text| > PreviewLength
  }

  /** The description as shown (line 144). */
  function Displayed(text: string, expanded: bool): (r: string)
    ensures expanded ==> r == text
    ensures !expanded ==> r == Collapsed(text)
  {
    if expanded then text else Collapsed(text)
  }

  /** A collapsed description is a prefix of at most 150 characters followed
      by "...", so it never runs past 153 characters. */
  lemma CollapsedIsPreview(text: string)
    ensures |Collapsed(text)| <= PreviewLength + 3
    ensures Collapsed(text)[..|Collapsed(text)| - 3] <= text
    ensures Collapsed(text)[|Collapsed(text)| - 3..] == "..."
  {
  }

  /** A short description is shown whole, but still with "...", and no
      control is offered to expand it. */
  lemma ShortTextShownWhole(text: string)
    requires !ShowsToggle(text)
    ensures Displayed(text, false) == text + "..."
  {
  }

  /** A long description's preview hides a non-empty tail of the text, which
      expanding reveals. */
  lemma ExpandingRevealsMore(text: string)
    requires ShowsToggle(text)
    ensures Displayed(text, false) == text[..PreviewLength] + "..."
    ensures text[..PreviewLength] < text
    ensures Displayed(text, true) == text
  {
  }

  // ---- the date line ----

  /** `res.charAt(0).toUpperCase() + res.slice(1)`. */
  function CapitalizeFirst(s: string): (r: string)
    ensures |r| == |s|
    ensures s != [] ==> r[0] == UpperChar(s[0]) && r[1..] == s[1..]
  {
    if s == [] then [] else [UpperChar(s[0])] + s[1..]
  }

  lemma CapitalizeIdempotent(s: string)
    ensures CapitalizeFirst(CapitalizeFirst(s)) == CapitalizeFirst(s)
  {
  }

  /** `job.created_at || job.createdAt` (line 132). */
  function JobDate(job: Job): (r: Option<string>)
    ensures HasText(job.createdAtSnake) ==> r == job.createdAtSnake
    ensures !HasText(job.createdAtSnake) ==> r == job.createdAt
  {
    if HasText(job.createdAtSnake) then job.createdAtSnake else job.createdAt
  }

  /** `formatDate` (lines 49-57). `relative` is what `formatDistanceToNow`
      gives for the date, `None` when it throws on an invalid date. */
  function FormatDate(date: Option<string>, relative: Option<string>): (r: string)
    ensures !HasText(date) ==> r == "Recently"
    ensures HasText(date) && relative.None? ==> r == "Recently"
    ensures HasText(date) && relative.Some? ==> r == CapitalizeFirst(relative.value)
  {
    if !HasText(date) then "Recently"
    else
      match relative
      case None => "Recently"
      case Some(res) => CapitalizeFirst(res)
  }

  /** Only the first letter of the relative time changes. */
  lemma FormatDateKeepsRest(date: Option<string>, res: string)
    requires HasText(date) && res != []
    ensures |FormatDate(date, Some(res))| == |res|
    ensures FormatDate(date, Some(res))[1..] == res[1..]
    ensures 'a' <= res[0] <= 'z' ==> 'A' <= FormatDate(date, Some(res))[0] <= 'Z'
  {
  }

  // ---- the logo ----

  /** What `renderLogo` draws: the image at a URL, or a letter. */
  datatype Logo = Image(url: string) | Letter(initial: char)

  /** `company?.company_name` is truthy. */
  predicate Named(company: Option<CompanyInfo>)
  {
    company.Some? && HasText(company.value.companyName)
  }

  /** `company?.profileimg_url` is truthy. */
  predicate Pictured(company: Option<CompanyInfo>)
  {
    company.Some? && HasText(company.value.profileImgUrl)
  }

  /** `job.company?.company_name || currentCompany?.company_name || "C"` (line 61). */
  function LogoName(job: Job, current: Option<CompanyInfo>): (r: string)
    ensures r != ""
    ensures Named(job.company) ==> r == job.company.value.companyName.value
    ensures !Named(job.company) && Named(current) ==> r == current.value.companyName.value
    ensures !Named(job.company) && !Named(current) ==> r == "C"
  {
    if Named(job.company) then job.company.value.companyName.value
    else if Named(current) then current.value.companyName.value
    else "C"
  }

  /** `job.company?.profileimg_url || currentCompany?.profileimg_url` (line 60). */
  function LogoUrl(job: Job, current: Option<CompanyInfo>): (r: Option<string>)
    ensures r.Some? ==> r.value != ""
    ensures r.None? <==> !Pictured(job.company) && !Pictured(current)
    ensures Pictured(job.company) ==> r == job.company.value.profileImgUrl
  {
    if Pictured(job.company) then job.company.value.profileImgUrl
    else if Pictured(current) then current.value.profileImgUrl
    else None
  }

  /** `renderLogo` (lines 59-69): the image when a URL is known, otherwise
      the first character of the name. */
  function RenderLogo(job: Job, current: Option<CompanyInfo>): (r: Logo)
    ensures LogoUrl(job, current).Some? ==> r == Image(LogoUrl(job, current).value)
    ensures LogoUrl(job, current).None? ==> r == Letter(LogoName(job, current)[0])
  {
    match LogoUrl(job, current)
    case Some(url) => Image(url)
    case None => Letter(LogoName(job, current)[0])
  }

  /** Without any logo or company name the placeholder is the letter C. */
  lemma PlaceholderLetter(job: Job)
    requires job.company.None?
    ensures RenderLogo(job, None) == Letter('C')
  {
  }

  // ---- the page state ----

  /** The component state: the jobs, the signed-in company and which
      descriptions are expanded. */
  class JobsPage {
    var jobs: seq<Job>
    var currentCompany: Option<CompanyInfo>
    var expandedJobs: map<int, bool>

    /** The initial state (lines 12-15). */
    constructor()
      ensures jobs == [] && currentCompany.None? && expandedJobs == map[]
    {
      jobs := [];
      currentCompany := None;
      expandedJobs := map[];
    }

    /** Whether the description of job `id` is shown whole (line 104). */
    predicate IsExpanded(id: int)
      reads this
    {
      Flag(expandedJobs, id)
    }

    /** `toggleExpand` (lines 45-47). */
    method ToggleExpand(id: int)
      modifies this
      ensures expandedJobs == Toggled(old(expandedJobs), id)
      ensures IsExpanded(id) == !old(IsExpanded(id))
      ensures forall k :: k != id ==> IsExpanded(k) == old(IsExpanded(k))
      ensures jobs == old(jobs) && currentCompany == old(currentCompany)
    {
      expandedJobs := Toggled(expandedJobs, id);
    }

    /** `fetchData` (lines 25-43). Without a token nothing is requested. The
      company request comes first: when it fails (`None`) nothing changes;
      otherwise its data is stored, and then a successful jobs request stores
      the jobs, `[]` when its data is not an array. */
    method FetchData(hasToken: bool, companyResponse: Option<Option<CompanyInfo>>,
                     jobsResponse: Option<Raw<Job>>)
      modifies this
      ensures !hasToken || companyResponse.None? ==>
        jobs == old(jobs) && currentCompany == old(currentCompany)
      ensures hasToken && companyResponse.Some? ==> currentCompany == companyResponse.value
      ensures hasToken && companyResponse.Some? && jobsResponse.Some? ==>
        jobs == (if jobsResponse.value.Items? then jobsResponse.value.items else [])
      ensures hasToken && companyResponse.Some? && jobsResponse.None? ==> jobs == old(jobs)
      ensures expandedJobs == old(expandedJobs)
    {
      if hasToken {
        if companyResponse.Some? {
          currentCompany := companyResponse.value;
          if jobsResponse.Some? {
            jobs := if jobsResponse.value.Items? then jobsResponse.value.items else [];
          }
        }
      }
    }
  }
}
