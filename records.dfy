/** The records the company portal receives from its REST API, as the views
    read them. JSON fields whose type varies from one record to the next are
    modelled by `Raw`, and `JSON.parse` by a caller-supplied `Decoder`. */
module Records {

  datatype Option<T> = None | Some(value: T)
  {
    /** `x ?? d` for a field that is either present or absent. */
    function GetOr(d: T): T
    {
      match this
      case Some(v) => v
      case None => d
    }
  }

  /** JavaScript truthiness of an optional text field: present and not `""`. */
  predicate HasText(o: Option<string>)
  {
    o.Some? && o.value != ""
  }

  /** A list-valued field as it may arrive: absent (undefined or null), a
      JSON-encoded string, a real array, or some other value (a number, a
      boolean, an object) whose JavaScript truthiness is recorded. */
  datatype Raw<T> = Missing | Text(text: string) | Items(items: seq<T>) | Scalar(truthy: bool)

  /** JavaScript truthiness of a `Raw` field: `""`, `undefined`, `null`,
      `0` and `false` are falsy, every array is truthy. */
  predicate Truthy<T>(raw: Raw<T>)
  {
    match raw
    case Missing => false
    case Text(s) => s != ""
    case Items(_) => true
    case Scalar(b) => b
  }

  /** The outcome of `JSON.parse(text)`: it throws, or yields an array, or
      yields some other JSON value. */
  datatype Parsed<T> = Malformed | ParsedList(items: seq<T>) | ParsedOther

  /** `JSON.parse` specialised to one element type. The grammar of JSON is not
      part of this model: every operation takes the decoder as a parameter. */
  type Decoder<T> = string -> Parsed<T>

  /** One entry of a talent's skill list: normally an object
      `{skill, name, experience_years}` (an absent `experience_years` is the
      empty text), sometimes a bare string. */
  datatype SkillEntry =
    | SkillObject(skill: Option<string>, name: Option<string>, experienceYears: string)
    | SkillText(text: string)

  /** One entry of a talent's language list, `{language}`. */
  datatype LanguageEntry = LanguageEntry(language: Option<string>)

  datatype Talent = Talent(
    id: int,
    firstName: Option<string>,
    lastName: Option<string>,
    occupation: Option<string>,
    specialty: Option<string>,
    language: Raw<LanguageEntry>,
    skils: Raw<SkillEntry>,
    skills: Raw<SkillEntry>,
    workType: Option<string>,
    workplaceType: Option<string>,
    minimumSalary: Option<int>,
    country: Option<string>,
    city: Option<string>,
    phone: Option<string>,
    phoneNumber: Option<string>)

  datatype CompanyInfo = CompanyInfo(companyName: Option<string>, profileImgUrl: Option<string>)

  /** A job posting; `skils` is either a comma-separated string or an array of
      skill names. `createdAtSnake` and `createdAt` are the two spellings of the
      creation date the API uses. */
  datatype Job = Job(
    id: int,
    occupation: Option<string>,
    description: Option<string>,
    skils: Raw<string>,
    company: Option<CompanyInfo>,
    createdAtSnake: Option<string>,
    createdAt: Option<string>)

  /** An application or invitation linking a talent to a job; the ids are the
      values of `Number(app.job_id)` and `Number(app.talent_id)`, `None` when
      that is NaN (a missing or non-numeric id). */
  datatype Application = Application(id: int, jobId: Option<int>, talentId: Option<int>, status: string)

  /** The two uses of `JSON.parse` on talent records. */
  datatype Decoders = Decoders(skills: Decoder<SkillEntry>, languages: Decoder<LanguageEntry>)
}
