/** The two persisted records. */
module Entities {
  import opened Values

  /** A stored project; `id` is the identity the store assigned. */
  datatype Project = Project(
    id: int,
    name: Text,
    field: Text,
    experience: Text,
    description: Text,
    deadline: Option<Date>)

  /** A stored vacancy; `projectId` is the identity of its owning project.
      Only the columns the vacancy service reads and writes are kept. */
  datatype Vacancy = Vacancy(
    id: int,
    name: Text,
    field: Text,
    experience: Text,
    country: Text,
    description: Text,
    projectId: int)
}
