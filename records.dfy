/** The four kinds of record the site keeps in local storage, already decoded
    from JSON. Fields that may be `null` or missing are `Option`s. */
module Records {
  import opened Wrappers

  /** A portfolio project; `image` is a base64 data URL. */
  datatype Project = Project(
    id: string,
    title: string,
    description: string,
    category: string,
    tags: seq<string>,
    image: Option<string>,
    liveLink: Option<string>,
    githubLink: Option<string>,
    published: bool,
    dateAdded: string)

  /** A skill with its proficiency percentage and Font Awesome icon classes. */
  datatype Skill = Skill(id: string, name: string, category: string, percentage: int, icon: string)

  /** A client review. `timestamp` (milliseconds since the epoch) is missing on
      reviews written before expiry was introduced. */
  datatype Review = Review(
    id: string,
    name: string,
    role: string,
    rating: int,
    project: string,
    message: string,
    date: string,
    timestamp: Option<int>)

  /** A message sent through the contact form. */
  datatype ContactMessage = ContactMessage(
    id: string,
    name: string,
    email: string,
    subject: string,
    message: string,
    date: string,
    read: bool)

  function ProjectId(p: Project): string { p.id }
  function SkillId(s: Skill): string { s.id }
  function ReviewId(r: Review): string { r.id }
  function MessageId(m: ContactMessage): string { m.id }

  /** JavaScript truthiness of an optional string field: present and non-empty. */
  predicate TruthyField(o: Option<string>) {
    o.Some? && o.value != []
  }
}
