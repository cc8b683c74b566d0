/** The shared job catalogue: the rows the ingestion service keeps, and the foreign
    computations it relies on, as plain values. */
module Catalogue {
  import opened Wrappers

  type Instant = int
  type JobId = nat
  type SourceKey = string

  /** One canonical field's content. The vocabulary enumerations are string
      enumerations, so their members are text and compare equal to text. */
  datatype Value = Missing | Text(text: string) | Date(at: Instant)

  datatype Field =
    | Title | Description | Location | WorkplaceType
    | EmploymentType | ApplicationUrl | PublishedAt | ExpiresAt

  /** What a job says, and equally what one record says about it. */
  datatype Canonical = Canonical(
    title: string,
    description: string,
    location: Value,
    workplaceType: Value,
    employmentType: Value,
    applicationUrl: string,
    publishedAt: Value,
    expiresAt: Value)
  {
    function At(f: Field): Value {
      match f
      case Title => Text(title)
      case Description => Text(description)
      case Location => location
      case WorkplaceType => workplaceType
      case EmploymentType => employmentType
      case ApplicationUrl => Text(applicationUrl)
      case PublishedAt => publishedAt
      case ExpiresAt => expiresAt
    }

    /** The table's check that a posting does not expire before it is published. */
    predicate DatesInOrder() {
      publishedAt.Date? && expiresAt.Date? ==> publishedAt.at <= expiresAt.at
    }
  }

  datatype Status = Active | Expired | Removed

  datatype Job = Job(
    company: string,
    matchKey: string,
    fields: Canonical,
    status: Status,
    updatedAt: Instant,
    anonymisedAt: Option<Instant>)

  /** What a provenance row keeps of its own record. `Absent` stands for rows
      written before the two facts were recorded. */
  datatype Payload = Absent | Delivered(partial: bool, stated: nat) | Emptied(at: Instant)

  datatype RowKey = RowKey(source: SourceKey, id: string)

  datatype Row = Row(
    job: JobId,
    url: string,
    firstSeen: Instant,
    lastSeen: Instant,
    retired: Option<Instant>,
    payload: Payload)

  datatype State = State(
    jobs: map<JobId, Job>,
    rows: map<RowKey, Row>,
    sources: map<SourceKey, int>,
    companies: seq<string>,
    nextJob: JobId)

  const EMPTY := State(map[], map[], map[], [], 0)

  /** One validated provider record. */
  datatype Record = Record(
    company: string,
    fields: Canonical,
    source: SourceKey,
    id: string,
    url: string,
    partial: bool)
  {
    function Key(): RowKey { RowKey(source, id) }
  }

  datatype Registration = Registration(key: SourceKey, precedence: int)

  /** The text computations identity rests on: name folding, the hashed match key,
      the city comparison and the vocabulary overlap. Any deterministic choice will do. */
  datatype Matching = Matching(
    normalizeCompany: string -> string,
    keyOf: (string, string) -> string,
    samePlace: (Value, Value) -> bool,
    readsTheSame: (string, string) -> bool)

  /** Some source still lists the job. */
  predicate Listed(s: State, j: JobId) {
    exists k :: k in s.rows && s.rows[k].job == j && s.rows[k].retired.None?
  }

  predicate HasRow(s: State, j: JobId) {
    exists k :: k in s.rows && s.rows[k].job == j
  }
}
