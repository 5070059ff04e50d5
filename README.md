# Workify company portal — a verified model of its list and text logic

Workify is a job board. This model covers the part of the React front-end that
companies use. Five views are modelled:

- **Talents** search: a chain of filters over the talent list.
- **Job detail** page: the job's applications, the skills text of the edit
  form, and the talents suggested as matches.
- **Notifications** inbox: company filter, newest-first order, unread/read
  tabs, mark as read, and delete with a confirmation modal.
- **Talent profile** page: the skill chips, the cleaned phone number, and the
  alert a company sends.
- **My jobs** list: expanding and collapsing descriptions, the date line, and
  the logo placeholder.

The model's shape follows the code's:

- Where the code builds new values with `filter`, `map`, `some` and `split`,
  the model uses functions over sequences.
- Where a component updates its state step by step, the model uses a class:
  `Notifications.Inbox`, `MyJobs.JobsPage`, and the search method
  `TalentFilter.ApplyFilters`.
  - `ApplyFilters` rebinds `result` one filter group at a time. Each stage is
    proved to extend the previous one.
  - The final result is proved equal to an independent specification,
    `Evaluate`: a single filter by the AND of every active group.

Modules:

| module | file | contents |
|---|---|---|
| `Seqs` | seqs.dfy | `Array.prototype.filter`, subsequences, pairwise relations |
| `Text` | text.dfy | `trim`, ASCII `toLowerCase`, `includes`, `split`/`join`, `parseInt(s) \|\| 0`, `Number(s)` |
| `Records` | records.dfy | the records the views receive; dynamically typed fields (`Raw`); the `JSON.parse` result (`Parsed`) |
| `TalentFilter` | talent_filter.dfy | src/Company/Talen/Talents.jsx |
| `JobMatcher` | job_matcher.dfy | src/Company/JobDetail/JobDetailPage.jsx |
| `Notifications` | notifications.dfy | src/Company/Notifications/Notification.jsx |
| `TalentProfile` | talent_profile.dfy | src/Company/Talen/TalentDetail.jsx |
| `MyJobs` | my_jobs.dfy | src/Company/MyJobs/MyJobs.jsx |

How JavaScript's behaviour is modelled:

- **Truthiness.** `Truthy` and `HasText` give JavaScript's truthiness.
- **`JSON.parse`.** A `Decoder` parameter stands in for it. A parse either
  fails, gives an array, or gives some other value.
- **`Number(s)`.** `NumberOf` models it, returning a `NumberResult` that is
  either `Finite` or `NaN`. Every comparison with NaN is false (`AtLeast`,
  `AtMost`).
- **`parseInt(s) || 0`.** `ParseIntOrZero` models it.
- **Numeric ids.** Ids are integers. A `Number(...)` that may be NaN is an
  `Option<int>`: an application's job and talent ids, and a notification's
  company id.

Three behaviours of the code are easy to miss:

- **Match against job skills.** A talent's skill name is compared with the
  job's skills without being trimmed (`JobMatcher.UntrimmedTalentSkillIsNoMatch`).
- **Salary bounds.** They go through `Number`, not `parseInt`. A bound that is
  not a number therefore excludes every talent
  (`TalentFilter.SalaryNaNExcludesAll`), rather than being read as 0.
- **Toggling a selection twice.** When the value was absent, this restores
  the list. When it was present, it comes back at the end, so the order
  changes unless it was already last (`TalentFilter.ToggleTwiceSelected`).

## Model

| member | source | states |
|---|---|---|
| Seqs.Filter | src/Company/Talen/Talents.jsx:62-143 | `filter` keeps exactly the entries satisfying the predicate, no more of each than the input holds, and never lengthens the list |
| Seqs.FilterIsSubsequence | src/Company/Talen/Talents.jsx:62-143 | a filtered list is an order-preserving selection of its input |
| Seqs.FilterAllPass | src/Company/Talen/Talents.jsx:62-143 | filtering with a predicate every entry meets gives the list back |
| Seqs.FilterCons | src/Company/Talen/Talents.jsx:62-143 | filtering a list with a known first entry: that entry is kept exactly when it passes |
| Seqs.FilterAppend | src/Company/Talen/Talents.jsx:62-143 | filtering distributes over concatenation |
| Seqs.FilterFilter | src/Company/Talen/Talents.jsx:62-143 | two successive filters equal one filter by the conjunction |
| Seqs.FilterSame | src/Company/Talen/Talents.jsx:62-143 | predicates that agree on the entries filter alike |
| Seqs.SubsequenceTransitive | src/Company/Talen/Talents.jsx:62-143 | a selection of a selection is a selection of the original |
| Seqs.FilterCount | src/Company/Talen/Talents.jsx:62-143 | a filter keeps every occurrence of an entry that passes and none of one that does not |
| Seqs.FilterCounts | src/Company/Talen/Talents.jsx:62-143 | FilterCount for every entry at once |
| Seqs.FilterPartition | src/Company/Notifications/Notification.jsx:97-98 | a predicate and its negation split a list: the lengths add up and the multisets add up to the input's |
| Seqs.FilterPairwise | src/Company/Notifications/Notification.jsx:69 | filtering keeps any pairwise relation (such as newest-first) between the kept entries |
| Records.HasText | src/Company/Talen/Talents.jsx:65-73 | JavaScript truthiness of an optional text: present and not "" (definition) |
| Records.Truthy | src/Company/Talen/Talents.jsx:82-84 | JavaScript truthiness of a dynamically typed field, as `talent.language \|\| []` tests it (definition) |
| Text.TrimStart | src/Company/Talen/Talents.jsx:96 | the result is a suffix of the input; it starts with no white space; only white space was removed |
| Text.IsSpace | src/Company/Talen/Talents.jsx:96 | the characters `trim` strips that this model covers: the ASCII white space, the no-break space and the byte-order mark (definition) |
| Text.TrimEnd | src/Company/Talen/Talents.jsx:96 | the result is a prefix of the input; it ends with no white space; only white space was removed |
| Text.Trim | src/Company/Talen/Talents.jsx:96 | `trim` never lengthens, and leaves no white space at either end |
| Text.TrimEmpty | src/Company/Talen/Talents.jsx:96 | `trim` gives "" exactly when every character is white space |
| Text.TrimmedIsFixed | src/Company/JobDetail/JobDetailPage.jsx:159 | text with no white space at its ends is unchanged by `trim` |
| Text.TrimLeadingSpace | src/Company/JobDetail/JobDetailPage.jsx:159 | `trim` removes the space that `join(", ")` puts before a trimmed piece |
| Text.Lower | src/Company/Talen/Talents.jsx:67 | `toLowerCase` keeps the length and lowers each character |
| Text.LowerChar | src/Company/Talen/Talents.jsx:67 | `toLowerCase` of one character, on ASCII letters (definition) |
| Text.LowerIdempotent | src/Company/Talen/Talents.jsx:67 | lowering twice is lowering once |
| Text.UpperChar | src/Company/JobDetail/JobDetailPage.jsx:143-144 | `toUpperCase` of one character, on ASCII letters (definition) |
| Text.Contains | src/Company/Talen/Talents.jsx:67 | `includes`: the needle occurs at some offset (definition; see ContainsIffOccurs) |
| Text.ContainsIffOccurs | src/Company/Talen/Talents.jsx:65-73 | `includes` holds exactly when the needle occurs at some offset of the text |
| Text.Split | src/Company/JobDetail/JobDetailPage.jsx:159 | `split` gives at least one piece, and no piece holds the separator |
| Text.Join | src/Company/JobDetail/JobDetailPage.jsx:63 | `join`: the pieces with the separator between them (definition) |
| Text.SplitNoSeparator | src/Company/JobDetail/JobDetailPage.jsx:159 | text without the separator splits into itself alone |
| Text.SplitAtSeparator | src/Company/JobDetail/JobDetailPage.jsx:159 | splitting at the first separator gives the text before it, followed by the split of the rest |
| Text.SplitJoin | src/Company/JobDetail/JobDetailPage.jsx:63 | joining pieces with no separator in them and splitting again gives the pieces back |
| Text.LeadingDigits | src/Company/Talen/Talents.jsx:109-110 | the longest run of digits that starts the text: a prefix, all digits, followed by no digit |
| Text.NatText | src/Company/Talen/Talents.jsx:109-110 | the decimal text of a number is a non-empty run of digits |
| Text.DigitsOfNatText | src/Company/Talen/Talents.jsx:109-110 | reading the digits of a number's decimal text gives the number |
| Text.LeadingDigitsOfDigits | src/Company/Talen/Talents.jsx:109-110 | all of a run of digits is its leading digits |
| Text.ParseNatText | src/Company/Talen/Talents.jsx:109-110 | `parseInt(String(n)) \|\| 0` is `n` |
| Text.ParseWithoutDigits | src/Company/Talen/Talents.jsx:109-110 | text that starts with neither a digit, a sign nor white space parses to 0 |
| Text.LeadingDigitsAppend | src/Company/Talen/Talents.jsx:109-110 | what follows a non-digit does not change the leading digits |
| Text.ReadSignedAppend | src/Company/Talen/Talents.jsx:109-110 | trailing white space does not change the number read |
| Text.ParseIntOfTrim | src/Company/Talen/Talents.jsx:109-110 | `parseInt` reads the same number from a text and from its trimmed form |
| Text.ParseIntOrZero | src/Company/Talen/Talents.jsx:109-110 | `parseInt(s) \|\| 0` in base ten: leading white space, an optional sign, the leading digits, 0 when there are none (definition) |
| Text.ReadSigned | src/Company/Talen/Talents.jsx:109-110 | the core of `parseInt` after leading white space: an optional sign, then the leading digits, 0 when there are none (definition) |
| Text.NumberOf | src/Company/Talen/Talents.jsx:126-133 | `Number` of blank text is 0 |
| Text.ReadNumber | src/Company/Talen/Talents.jsx:126-133 | the core of `Number` on trimmed text: an optional sign and digits only, NaN otherwise (definition) |
| Text.NumberAgreesWithParseInt | src/Company/Talen/Talents.jsx:126-133 | whenever `Number(s)` is finite it equals `parseInt(s) \|\| 0` |
| Text.NumberOfDigits | src/Company/Talen/Talents.jsx:126-133 | a run of digits reads as its decimal value |
| Text.NumberOfNegatedDigits | src/Company/Talen/Talents.jsx:126-133 | "-" followed by a run of digits reads as the negated value |
| Text.NumberOfNatText | src/Company/Talen/Talents.jsx:126-133 | `Number(String(n))` is `n` |
| Text.NumberOfJunk | src/Company/Talen/Talents.jsx:126-133 | text that, once trimmed, starts with neither a digit nor a sign is NaN |
| TalentFilter.DefaultQuery | src/Company/Talen/Talents.jsx:27-38 | the initial filter state has a single skill row, which is blank |
| TalentFilter.Active | src/Company/Talen/Talents.jsx:65-141 | the guard of each group: `occupation`, `speciality`, `selectedSpecs.length > 0`, `selectedLangs.length > 0`, `activeSkills.length > 0`, `workType`, `workplaceType`, `salaryRange.min`, `salaryRange.max`, `location.country`, `location.city` (definition) |
| TalentFilter.SkillName | src/Company/Talen/Talents.jsx:106 | `ts.skill \|\| ""` of one skill entry (definition) |
| TalentFilter.ExperienceText | src/Company/Talen/Talents.jsx:109 | `ts.experience_years` of one skill entry, as text (definition) |
| TalentFilter.ActiveRows | src/Company/Talen/Talents.jsx:96 | the rows whose skill text does not trim to "" (definition) |
| TalentFilter.FieldIncludes | src/Company/Talen/Talents.jsx:65-73 | the case-insensitive substring test of occupation, speciality, country and city; an absent field fails (definition) |
| TalentFilter.SpeaksSelected | src/Company/Talen/Talents.jsx:78-94 | some selected language equals some language name of the talent, ignoring case (definition) |
| TalentFilter.RowSatisfiedBy | src/Company/Talen/Talents.jsx:105-114 | a skill satisfies a row: its lowered name contains the lowered row text, and its years reach the row's when the row gives some (definition) |
| TalentFilter.CoversRows | src/Company/Talen/Talents.jsx:104-116 | every active row is satisfied by some skill of the talent (definition) |
| TalentFilter.SalaryOf | src/Company/Talen/Talents.jsx:128 | `minimum_salary`, or 0 when missing (definition) |
| TalentFilter.AtLeast | src/Company/Talen/Talents.jsx:126-129 | `salary >= Number(min)`, false when the bound is NaN (definition) |
| TalentFilter.AtMost | src/Company/Talen/Talents.jsx:130-133 | `salary <= Number(max)`, false when the bound is NaN (definition) |
| TalentFilter.Passes | src/Company/Talen/Talents.jsx:62-143 | the test of each filter group on one talent, as the effect applies it (definition) |
| TalentFilter.Evaluate | src/Company/Talen/Talents.jsx:62-143 | the specified result: the talents passing every active group, in their original order (definition) |
| TalentFilter.KeepGroup | src/Company/Talen/Talents.jsx:65-141 | one `result.filter(...)` by the test of a group (definition) |
| TalentFilter.Step | src/Company/Talen/Talents.jsx:65-141 | one guarded step: the group's filter when its guard holds, `result` unchanged otherwise (definition) |
| TalentFilter.Staged | src/Company/Talen/Talents.jsx:63-141 | `result` after the effect's first n guarded steps, starting from `[...allTalents]` (definition) |
| TalentFilter.ListOf | src/Company/Talen/Talents.jsx:78-121 | the defensive list read: an array as it is; a missing value as `[]`; text only when it parses to an array |
| TalentFilter.PassesAllIff | src/Company/Talen/Talents.jsx:62-143 | passing the groups one after another means passing every active group |
| TalentFilter.EvaluateNothing | src/Company/Talen/Talents.jsx:63 | before any group, the result is the full talent list |
| TalentFilter.StepExtends | src/Company/Talen/Talents.jsx:62-143 | applying one more group when its guard holds, and skipping it otherwise, extends the set of groups passed |
| TalentFilter.StagedIsEvaluate | src/Company/Talen/Talents.jsx:62-143 | after the first n steps of the effect, `result` is the talents passing the first n groups |
| TalentFilter.StagedAllIsEvaluate | src/Company/Talen/Talents.jsx:62-143 | after the last step, `result` is the specified search result |
| TalentFilter.Narrow | src/Company/Talen/Talents.jsx:62-143 | one guarded `result = result.filter(...)` step advances the staged result by one group |
| TalentFilter.NarrowByText | src/Company/Talen/Talents.jsx:65-73 | the occupation and speciality steps |
| TalentFilter.NarrowBySelections | src/Company/Talen/Talents.jsx:75-94 | the specialty and language steps |
| TalentFilter.NarrowBySkills | src/Company/Talen/Talents.jsx:96-121 | the skill-row step, applied only when some row is non-blank |
| TalentFilter.NarrowByWork | src/Company/Talen/Talents.jsx:123-125 | the employment and workplace type steps |
| TalentFilter.NarrowBySalary | src/Company/Talen/Talents.jsx:126-133 | the minimum and maximum salary steps |
| TalentFilter.NarrowByLocation | src/Company/Talen/Talents.jsx:134-141 | the country and city steps |
| TalentFilter.ApplyFilters | src/Company/Talen/Talents.jsx:62-143 | the effect's result equals the specification: the talents passing every active group, in their original order |
| TalentFilter.EvaluateIsSubsequence | src/Company/Talen/Talents.jsx:62-143 | the result is an order-preserving selection of `allTalents`: nothing is added or duplicated |
| TalentFilter.EvaluateMembership | src/Company/Talen/Talents.jsx:62-143 | groups combine by AND: a talent is kept exactly when it passes every active group |
| TalentFilter.InactiveQueryKeepsAll | src/Company/Talen/Talents.jsx:62-143 | with no group active, every talent is kept |
| TalentFilter.DefaultQueryKeepsAll | src/Company/Talen/Talents.jsx:27-38 | the initial filter state keeps every talent |
| TalentFilter.UnreadableLanguagesExcluded | src/Company/Talen/Talents.jsx:78-94 | once a language is selected, a talent whose language data does not parse to a list is excluded |
| TalentFilter.UnreadableSkillsExcluded | src/Company/Talen/Talents.jsx:96-121 | once a skill row is filled in, a talent whose skill data does not parse to a list is excluded |
| TalentFilter.SalaryNaNExcludesAll | src/Company/Talen/Talents.jsx:126-133 | a salary bound that is not a number excludes every talent |
| TalentFilter.BlankRowIgnored | src/Company/Talen/Talents.jsx:96 | adding a skill row whose skill trims to "" does not change the result |
| TalentFilter.SameGroups | src/Company/Talen/Talents.jsx:62-143 | two queries that differ only in blank skill rows pass the same talents |
| TalentFilter.ToggleMembership | src/Company/Talen/Talents.jsx:239-244 | after a toggle, the value is selected exactly when it was not; no other value changes |
| TalentFilter.Toggle | src/Company/Talen/Talents.jsx:239-244 | `prev.includes(x) ? prev.filter(s => s !== x) : [...prev, x]`, for specialties and languages (definition) |
| TalentFilter.ToggleTwiceUnselected | src/Company/Talen/Talents.jsx:239-244 | toggling an unselected value twice restores the selection exactly |
| TalentFilter.ToggleTwiceSelected | src/Company/Talen/Talents.jsx:300-306 | toggling a selected value twice restores the set of values; the value moves to the end |
| TalentFilter.FilterKeepsNoDuplicates | src/Company/Talen/Talents.jsx:241-243 | removing a value keeps a selection free of duplicates |
| TalentFilter.ToggleKeepsNoDuplicates | src/Company/Talen/Talents.jsx:239-244 | toggles never put a value twice into a selection |
| TalentFilter.ToggleChoice | src/Company/Talen/Talents.jsx:392 | choosing the current type clears it to ""; choosing another sets it |
| TalentFilter.ToggleChoiceTwice | src/Company/Talen/Talents.jsx:411 | choosing the same type twice restores the choice when it was clear or was that same type |
| TalentFilter.SetRowSkill | src/Company/Talen/Talents.jsx:328-334 | only the rows with the edited id get the new skill text; the others are unchanged |
| TalentFilter.SetRowExperience | src/Company/Talen/Talents.jsx:347-353 | only the rows with the edited id get the new experience; the others are unchanged |
| TalentFilter.SetRowExperienceKeepsActiveRows | src/Company/Talen/Talents.jsx:347-353 | editing an experience never changes how many rows are active |
| TalentFilter.AddSkillRow | src/Company/Talen/Talents.jsx:364-368 | a new blank row is appended with the clock value as its id; the existing rows stay |
| TalentFilter.AddSkillRowKeepsResult | src/Company/Talen/Talents.jsx:364-368 | adding a row does not change the result |
| TalentFilter.Specialties | src/Company/Talen/Talents.jsx:234 | the truthy specialties of the talents; with SpecialtiesSnoc, one entry per talent that has one, in talent order, duplicates kept |
| TalentFilter.SpecialtiesAppend | src/Company/Talen/Talents.jsx:234 | the specialties of two lists of talents are those of the first followed by those of the second |
| TalentFilter.SpecialtiesSnoc | src/Company/Talen/Talents.jsx:234 | one more talent adds its own specialty, if truthy, at the end and changes nothing before it |
| TalentFilter.Distinct | src/Company/Talen/Talents.jsx:234 | `new Set`: the same values, each once |
| TalentFilter.SpecialtyOptions | src/Company/Talen/Talents.jsx:234 | the specialty checkboxes: each truthy specialty of some talent, exactly once |
| TalentFilter.DistinctIsSubsequence | src/Company/Talen/Talents.jsx:234 | the distinct values are an order-preserving selection of the input |
| TalentFilter.DistinctKeepsFirstOccurrenceOrder | src/Company/Talen/Talents.jsx:234 | `new Set` keeps insertion order: of two values it lists, the earlier one first occurs earlier in the input |
| JobMatcher.KeptApplications | src/Company/JobDetail/JobDetailPage.jsx:52-54 | exactly the applications for this job that are not rejected, in their original order, each as often as in the input |
| JobMatcher.UnnumberedJobDropped | src/Company/JobDetail/JobDetailPage.jsx:53 | an application whose `Number(app.job_id)` is NaN is never kept |
| JobMatcher.Kept | src/Company/JobDetail/JobDetailPage.jsx:52-53 | `Number(app.job_id) === Number(id) && app.status !== 'rejected'` (definition) |
| JobMatcher.TrimAll | src/Company/JobDetail/JobDetailPage.jsx:159 | every piece is trimmed, and the count is kept |
| JobMatcher.SkillList | src/Company/JobDetail/JobDetailPage.jsx:159 | every skill read from text is non-empty and trimmed |
| JobMatcher.NonEmpty | src/Company/JobDetail/JobDetailPage.jsx:159 | `filter(s => s !== "")` (definition) |
| JobMatcher.GetJobSkills | src/Company/JobDetail/JobDetailPage.jsx:156-162 | text is split, trimmed and cleared of empty pieces; an array is used as it is; anything else, or no job, gives [] |
| JobMatcher.EditFormSkills | src/Company/JobDetail/JobDetailPage.jsx:63 | the form's skills text: an array joined with ", "; text as it is; a falsy value as "" |
| JobMatcher.JoinSpaced | src/Company/JobDetail/JobDetailPage.jsx:63 | `join(", ")` is `join(",")` of the pieces with a space in front of each but the first |
| JobMatcher.SkillListOfJoined | src/Company/JobDetail/JobDetailPage.jsx:159 | reading back the ", "-joined text of trimmed, comma-free, non-empty skills gives the skills |
| JobMatcher.EditFormRoundTrip | src/Company/JobDetail/JobDetailPage.jsx:63 | saving the edit form's text of an array of such skills and reading it again with `getJobSkills` gives the same array |
| JobMatcher.ParseTalentSkills | src/Company/JobDetail/JobDetailPage.jsx:148-154 | never fails: a falsy value, unparseable text, or a non-array result all give [] |
| JobMatcher.GetInitials | src/Company/JobDetail/JobDetailPage.jsx:142-146 | the upper-cased first letter of each present name; "?" when there is none |
| JobMatcher.LowerAll | src/Company/JobDetail/JobDetailPage.jsx:175 | every job skill lowered; the count is kept |
| JobMatcher.AlreadyApplied | src/Company/JobDetail/JobDetailPage.jsx:172 | some kept application names the talent (definition) |
| JobMatcher.SkillMatches | src/Company/JobDetail/JobDetailPage.jsx:177 | an object entry whose lowered `skill` is among the lowered job skills (definition) |
| JobMatcher.IsMatch | src/Company/JobDetail/JobDetailPage.jsx:170-178 | the job has skills, the talent has not applied, and some parsed skill matches (definition) |
| JobMatcher.MatchedTalents | src/Company/JobDetail/JobDetailPage.jsx:170-178 | an order-preserving selection of the talents: exactly those that match, each as often as in the input |
| JobMatcher.NoSkillsNoMatches | src/Company/JobDetail/JobDetailPage.jsx:170-171 | no job, or a job without skills, matches nobody |
| JobMatcher.AppliedNeverMatched | src/Company/JobDetail/JobDetailPage.jsx:172-173 | a talent with a pending or accepted application for the job is never suggested |
| JobMatcher.RejectedDoesNotBlock | src/Company/JobDetail/JobDetailPage.jsx:52-54 | a talent whose applications for this job are all rejected is not counted as applied, whatever its applications to other jobs |
| JobMatcher.InLowerAll | src/Company/JobDetail/JobDetailPage.jsx:175-177 | a lowered name is among the lowered job skills exactly when it equals some job skill, ignoring case |
| JobMatcher.MatchedIffSharedSkill | src/Company/JobDetail/JobDetailPage.jsx:170-178 | a talent is matched exactly when it has not applied and some named skill object equals a job skill, ignoring case |
| JobMatcher.ContainmentIsNoMatch | src/Company/JobDetail/JobDetailPage.jsx:177 | an instance of MatchedIffSharedSkill: the skill test is equality, not containment, so "React Native" does not match "React" |
| JobMatcher.UntrimmedTalentSkillIsNoMatch | src/Company/JobDetail/JobDetailPage.jsx:177 | an instance of MatchedIffSharedSkill: a talent's skill name is not trimmed, so " react" does not match "React" |
| Notifications.CurrentCompanyKey | src/Company/Notifications/Notification.jsx:23-30 | no token gives `null` (0); otherwise `company_id` when truthy, else `id` |
| Notifications.OfCompany | src/Company/Notifications/Notification.jsx:36-38 | `Number(n.company_id) === Number(currentCompanyId)`, false when either is NaN (definition) |
| Notifications.ForCompany | src/Company/Notifications/Notification.jsx:36-38 | exactly the notifications whose numeric company id equals the current one, in order, each as often as in the input |
| Notifications.Insert | src/Company/Notifications/Notification.jsx:41 | inserting adds exactly one entry, at the front or after the old head |
| Notifications.InsertKeepsOrder | src/Company/Notifications/Notification.jsx:41 | inserting into a newest-first list keeps it newest first |
| Notifications.NewestFirst | src/Company/Notifications/Notification.jsx:41 | the sort gives a newest-first permutation of its input |
| Notifications.NewestFirstOrder | src/Company/Notifications/Notification.jsx:41 | the order the sort establishes: no entry is older than one after it (definition) |
| Notifications.InsertKeepsTies | src/Company/Notifications/Notification.jsx:41 | among the entries of one timestamp, the inserted entry comes first and the others keep their order |
| Notifications.NewestFirstStable | src/Company/Notifications/Notification.jsx:41 | the sort is stable: entries with the same timestamp keep their relative order |
| Notifications.NewestFirstOfOrdered | src/Company/Notifications/Notification.jsx:41 | a list already newest first is left as it is |
| Notifications.Loaded | src/Company/Notifications/Notification.jsx:34-42 | what a successful fetch stores: the company filter followed by the sort (definition) |
| Notifications.LoadedContents | src/Company/Notifications/Notification.jsx:34-42 | the loaded list is newest first and holds exactly the company's notifications |
| Notifications.TabsPartition | src/Company/Notifications/Notification.jsx:97-98 | the unread and read tabs partition the list: each entry is in exactly one, the order is kept, and the counts add up |
| Notifications.UnreadList | src/Company/Notifications/Notification.jsx:97 | `notifications.filter(n => !n.is_read)` (definition) |
| Notifications.ReadList | src/Company/Notifications/Notification.jsx:98 | `notifications.filter(n => n.is_read)` (definition) |
| Notifications.TabList | src/Company/Notifications/Notification.jsx:99 | the shown list is exactly the entries of the selected tab |
| Notifications.MarkRead | src/Company/Notifications/Notification.jsx:58 | entries with the id become read; all others, and the length, are unchanged |
| Notifications.WithoutId | src/Company/Notifications/Notification.jsx:69 | exactly the entries with another id, in order, each as often as in the input |
| Notifications.MarkReadLeavesUnread | src/Company/Notifications/Notification.jsx:58 | marking read takes exactly that id's entries out of the unread tab |
| Notifications.MarkReadIdempotent | src/Company/Notifications/Notification.jsx:58 | marking twice is marking once |
| Notifications.MarkReadKeepsOrder | src/Company/Notifications/Notification.jsx:58 | marking read keeps the list newest first |
| Notifications.WithoutIdKeepsOrder | src/Company/Notifications/Notification.jsx:82 | deleting keeps the list newest first |
| Notifications.DeleteFromReadTab | src/Company/Notifications/Notification.jsx:69 | deleting an id removes it from each tab and changes nothing else in either |
| Notifications.Inbox.constructor | src/Company/Notifications/Notification.jsx:13-16 | empty list, unread tab, closed modal |
| Notifications.Inbox.Counts | src/Company/Notifications/Notification.jsx:135-145 | each badge is the length of its tab, and the two add up to the number of notifications |
| Notifications.Inbox.DisplayList | src/Company/Notifications/Notification.jsx:99 | the list shown is exactly the entries of the active tab |
| Notifications.Inbox.Fetch | src/Company/Notifications/Notification.jsx:18-49 | an array response replaces the list with the company's notifications, newest first; otherwise nothing changes |
| Notifications.Inbox.SelectTab | src/Company/Notifications/Notification.jsx:129-139 | selects the tab and changes nothing else; the list stays newest first |
| Notifications.Inbox.MarkAsRead | src/Company/Notifications/Notification.jsx:55-63 | after the server accepts, the id's entries are read; if it fails, nothing changes |
| Notifications.Inbox.HandleDelete | src/Company/Notifications/Notification.jsx:65-77 | in the read tab the id is deleted once the server accepts; in the unread tab the modal opens with the id and the list stays |
| Notifications.Inbox.ConfirmDelete | src/Company/Notifications/Notification.jsx:79-88 | once the server accepts, the modal's id is deleted and the modal closes; on failure nothing changes |
| Notifications.Inbox.CancelDelete | src/Company/Notifications/Notification.jsx:218 | closes the modal and changes nothing else; the list stays newest first |
| TalentProfile.RawSkills | src/Company/Talen/TalentDetail.jsx:134 | `skils` when truthy, else `skills` |
| TalentProfile.GetSkillsArray | src/Company/Talen/TalentDetail.jsx:133-137 | an array as it is; a falsy value or unparseable text gives []; text that parses to an array gives that array |
| TalentProfile.SkillsAgreeWithJobPage | src/Company/Talen/TalentDetail.jsx:133-137 | when `skils` is set and is an array, or text that parses to an array or fails to parse, the profile page reads the same list as the job page |
| TalentProfile.SkillsDifferFromJobPage | src/Company/Talen/TalentDetail.jsx:133-137 | for any other truthy `skils` (a number, `true`, or text parsing to a non-array), the profile page gives None where the job page gives [] |
| TalentProfile.SkillLabel | src/Company/Talen/TalentDetail.jsx:275 | a bare string is its own label; an object shows `skill`, else `name` |
| TalentProfile.PhoneSource | src/Company/Talen/TalentDetail.jsx:143 | `phone`, else `phone_number`, else "" |
| TalentProfile.IsDialChar | src/Company/Talen/TalentDetail.jsx:143 | the characters `/[^\d+]/g` keeps: ASCII digits and '+' (definition) |
| TalentProfile.CleanPhone | src/Company/Talen/TalentDetail.jsx:143 | `cleanPhone`: the dial characters of the phone source (definition) |
| TalentProfile.DialChars | src/Company/Talen/TalentDetail.jsx:143 | only digits and '+', in their original order, and no longer than the input |
| TalentProfile.DialCharsKeepsCounts | src/Company/Talen/TalentDetail.jsx:143 | every digit and '+' of the input survives, as often as it occurs |
| TalentProfile.DialCharsDropsOnlyOthers | src/Company/Talen/TalentDetail.jsx:143 | the characters removed are exactly the others |
| TalentProfile.CleanIdempotent | src/Company/Talen/TalentDetail.jsx:143 | cleaning twice is cleaning once |
| TalentProfile.CleanConcat | src/Company/Talen/TalentDetail.jsx:143 | cleaning works piece by piece |
| TalentProfile.DefaultAlertTitle | src/Company/Talen/TalentDetail.jsx:36 | the pre-filled title is the occupation followed by " - New Opportunity!", and just " - New Opportunity!" when there is no occupation |
| TalentProfile.BuildAlert | src/Company/Talen/TalentDetail.jsx:49-57 | the payload names the page's talent, with no job, unread, not sent to Telegram; the title falls back to "Opportunity Alert" |
| TalentProfile.AlertTitleNeverEmpty | src/Company/Talen/TalentDetail.jsx:49-57 | an alert always carries a title |
| TalentProfile.PrefilledTitleKept | src/Company/Talen/TalentDetail.jsx:36 | with the pre-filled title, the fallback never applies |
| MyJobs.Toggled | src/Company/MyJobs/MyJobs.jsx:46 | negates the flag of the id and keeps every other key |
| MyJobs.Flag | src/Company/MyJobs/MyJobs.jsx:46 | `!!prev[id]`: an unset key reads as false (definition) |
| MyJobs.ToggleTwice | src/Company/MyJobs/MyJobs.jsx:46 | two toggles restore every job's expanded state |
| MyJobs.ToggleIsolated | src/Company/MyJobs/MyJobs.jsx:46 | toggling one job never changes another |
| MyJobs.DescriptionText | src/Company/MyJobs/MyJobs.jsx:105 | a missing description is "" |
| MyJobs.Collapsed | src/Company/MyJobs/MyJobs.jsx:144 | the first 150 characters followed by "...", even for short texts |
| MyJobs.Displayed | src/Company/MyJobs/MyJobs.jsx:144 | the whole text when expanded, the preview otherwise |
| MyJobs.ShowsToggle | src/Company/MyJobs/MyJobs.jsx:145 | the control appears only for descriptions longer than 150 characters (definition) |
| MyJobs.CollapsedIsPreview | src/Company/MyJobs/MyJobs.jsx:144 | a preview is a prefix of the text plus "...", never longer than 153 characters |
| MyJobs.ShortTextShownWhole | src/Company/MyJobs/MyJobs.jsx:144-145 | a text of 150 characters or fewer shows whole, with "...", and has no toggle |
| MyJobs.ExpandingRevealsMore | src/Company/MyJobs/MyJobs.jsx:144-145 | for a description the toggle is offered for, the preview is its first 150 characters plus "...", which hides a non-empty tail, and expanding shows the whole text |
| MyJobs.CapitalizeFirst | src/Company/MyJobs/MyJobs.jsx:53 | upper-cases the first character and keeps the rest |
| MyJobs.CapitalizeIdempotent | src/Company/MyJobs/MyJobs.jsx:53 | capitalising twice is capitalising once |
| MyJobs.JobDate | src/Company/MyJobs/MyJobs.jsx:132 | `created_at`, else `createdAt` |
| MyJobs.FormatDate | src/Company/MyJobs/MyJobs.jsx:49-57 | "Recently" for a missing or invalid date, else the capitalised relative time |
| MyJobs.FormatDateKeepsRest | src/Company/MyJobs/MyJobs.jsx:49-57 | only the first letter of the relative time changes |
| MyJobs.LogoName | src/Company/MyJobs/MyJobs.jsx:61 | the job's company name, else the current company's, else "C"; never empty |
| MyJobs.LogoUrl | src/Company/MyJobs/MyJobs.jsx:60 | the job's company picture, else the current company's, else none |
| MyJobs.Named | src/Company/MyJobs/MyJobs.jsx:61 | `company?.company_name` is truthy (definition) |
| MyJobs.Pictured | src/Company/MyJobs/MyJobs.jsx:60 | `company?.profileimg_url` is truthy (definition) |
| MyJobs.RenderLogo | src/Company/MyJobs/MyJobs.jsx:59-69 | the picture when there is one, otherwise the first letter of the name |
| MyJobs.PlaceholderLetter | src/Company/MyJobs/MyJobs.jsx:61-66 | with no company at all the placeholder is "C" |
| MyJobs.JobsPage.constructor | src/Company/MyJobs/MyJobs.jsx:12-15 | no jobs, no company, nothing expanded |
| MyJobs.JobsPage.IsExpanded | src/Company/MyJobs/MyJobs.jsx:104 | `expandedJobs[job.id]` read as a truth value; an unset key is false (definition) |
| MyJobs.JobsPage.ToggleExpand | src/Company/MyJobs/MyJobs.jsx:45-47 | the id's flag flips, every other job keeps its state, and the lists are untouched |
| MyJobs.JobsPage.FetchData | src/Company/MyJobs/MyJobs.jsx:25-43 | without a token or after a failed company request nothing changes; otherwise the company is stored, and a successful jobs request stores the jobs, or [] when the data is not an array |

## Left out

- Network requests: every API call is a parameter. A response is an `Option` or a payload value; success or failure is a boolean.
- Login token and storage: `jwtDecode`, `localStorage` and `sessionStorage` are not modelled. The decoded claims, or whether a token exists, are parameters.
- The JSON grammar: `JSON.parse` is a `Decoder` parameter. It reports a failed parse, an array, or some other value.
- Text.NumberOf: reads integers only. Decimal (`"12.5"`), exponent (`"1e3"`), hexadecimal (`"0x10"`), `"Infinity"` and `"."` texts are read as NaN, although JavaScript reads them as numbers. A `type="number"` input can hold a decimal.
- Text.ParseIntOrZero: reads base ten only. A `"0x"` prefix, which `parseInt` reads as hexadecimal, is read as 0.
- JobMatcher.GetInitials, MyJobs.CapitalizeFirst: `toUpperCase` is modelled on ASCII letters only (`Text.UpperChar`). The code upper-cases any letter ("ш" becomes "Ш"), and some letters become several ("ß" becomes "SS"), so the code's initials can be longer than two characters; the bound `1 <= |r| <= 2` holds for the model only. CapitalizeFirst only receives the English text of the relative-time library, where the ASCII limit does not matter.
- TalentFilter.SalaryOf: `minimum_salary` is an integer, standing for `Number(...)` of what the API sends; a fractional salary, or a salary sent as numeric text, is not modelled.
- Text.Lower, Text.Trim: `toLowerCase` covers ASCII letters only, and the white space `trim` strips is the ASCII set plus the no-break space and the byte-order mark. Other Unicode case mappings and spaces are not modelled.
- Lengths are counted in characters, not UTF-16 code units, so astral characters count once in the 150-character preview.
- Dates: `createdAt` is an integer timestamp, so an invalid date, which JavaScript sorts as NaN, cannot occur.
- Relative times: the relative time of `formatDistanceToNow` is a parameter. `getTimeAgo` (src/Company/Notifications/Notification.jsx:90-95) is not modelled.
- Locale and number formatting, and the CSS upper-casing of the logo letter, are presentation.
- Rendering is not modelled: JSX, themes, animations, toasts, `setTimeout` delays, navigation, loading flags and `window.dispatchEvent` are UI effects without a result in the model.
- The `skils` and `skills` fields are taken as read; the talent list request (src/Company/Talen/Talents.jsx:45-60) is network plumbing.
- Notifications.Inbox.Fetch: the in-place `sort` is modelled as a pure stable insertion sort (`NewestFirst`). Its state update matches the code. Aliasing between the response array and the stored list is not modelled.
- `null` entries in arrays, which make the code throw a TypeError, are not represented: list entries are records.
- JavaScript object keys are strings. `expandedJobs` is a map from integer ids.
- JobMatcher.EditFormSkills: a truthy `skils` that is neither text nor an array is copied by the code as it is. The model gives `None` and does not model the form field holding that value.
- TalentProfile.GetSkillsArray: gives `None` for text that parses to a JSON value other than an array, and for a truthy `skils`/`skills` that is neither text nor an array; the model does not separate these cases, and the code treats them differently. A truthy object is turned into the text "[object Object]", `JSON.parse` throws, and the catch gives []. A number or `true` is returned as it is, and a parsed object, number or boolean is returned as it is; none of these has a positive `length`, so line 272 shows "No skills specified" without calling `map`. A parsed non-empty string passes the `length` test and throws at `map`, and a parsed `null` throws at `.length`.
- The form reset after an alert is sent (src/Company/Talen/TalentDetail.jsx:67) is not modelled: it only writes state that is rendered.
- `Number(id)` of the route is an integer parameter, so a non-numeric route (NaN) is not represented.
- A talent's `id` is an integer, so `Number(talent.id)` at src/Company/JobDetail/JobDetailPage.jsx:172 is never NaN in the model; a talent record without a numeric id is not represented.
- src/Company/Footer/Footer.jsx and src/Company/Sidebar/Sidebar.jsx are not part of this model: they hold navigation, token checks and window listeners.
- The job edit form's save (src/Company/JobDetail/JobDetailPage.jsx:120-121) is not modelled: it is a request payload sent over the network.
