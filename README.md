# Projects and vacancies: a verified model of the service core

This project models the core of a small CRUD backend that keeps *projects*
(name, field, experience, description, deadline) and their *vacancies*
(name, field, experience, country, description, owning project). It covers
three parts of the Java service:

- **The two domain services** (`ProjectServiceImpl`, `VacancyServiceImpl`),
  as one class `Services.Store` holding the two tables as maps from id to
  record, plus one identity counter per table. Each operation checks first
  and then acts: project names are checked on create; ids must exist for
  get, update and delete; the owning project must exist before its
  vacancies are listed or added. Thrown exceptions become an explicit
  `Outcome`: `Ok(value)` or `Fail(failure)`. Each method's contract states
  the whole new state of both tables: what was inserted, overwritten or
  removed, and that everything else is unchanged. `Valid()` is the store's
  invariant: both counters start at 1, and every record sits under its own
  id, which is at least 1 and below its table's counter.
  Every method preserves it.
- **The request validators** (`ProjectRequestDto`, `VacancyRequestDto`).
  Their `@NotBlank`, `@Size` and `@NotNull` annotations become predicates
  over nullable strings (`Option<string>`). `Errors` lists every violated
  annotation as a field error, and lemmas show that a field is reported
  exactly when its constraints reject it.
- **The failure translator** (`GlobalExceptionHandler`). Not-found failures
  become 404 and a duplicate name becomes 409, each with the failure's
  message as the body. A validation failure becomes 400 with a
  field-to-message map. The map is built by a loop that puts each error in
  list order (`HandleValidationExceptions`). It is proved equal to
  `FoldErrors`. Lemmas show the map's keys are exactly the reported fields
  and each value is the message of the last error on that field.

`Scenarios` holds client code that states properties spanning several
calls: create then get, a duplicate create, an update applied twice, ids
the store never issued, a rename to a taken name, and the life cycles of a
project and of a vacancy.

Some behaviour follows from the code rather than from the service's
intended design, and the model follows the code:

- The length limits are those the annotations carry. Project name, field
  and experience allow 2 to 50 characters and description 2 to 500.
  Vacancy name, field, experience and country allow at most 255 and
  description at most 1000.
- Deleting a project does not delete its vacancies. The intended design
  cascades, but no code in the service does. `Store.Delete` leaves the
  vacancy table unchanged. In the model, whose tables carry no foreign
  key, `Scenarios.VacancyLifeCycle` therefore shows a vacancy outliving
  its project. A database that enforces the `project_id` join column as a
  foreign key would refuse that delete instead.
- `update` does not check names, so two projects can end up sharing one.
  The repository's `findByName` returns at most one row, so a later
  `create` with that name fails inside the query (Spring Data raises an
  incorrect-result-size error). No handler maps that failure. It is
  modelled as `NonUniqueName`, which `Handle` leaves unanswered.
- `@NotBlank` is Hibernate Validator's check, which is `String.trim()`
  being non-empty. A value is blank when every character is at or below
  U+0020.
- A `null` name takes part in the name query like any other value. Spring
  Data turns a `null` argument into an `is null` condition.

## Model

| member | source | states |
|---|---|---|
| `ProjectRequestDto.Errors` | src/main/java/org/project/dto/ProjectRequestDto.java:9-28 | no error is reported iff name, field and experience are non-blank with 2..50 characters, description is non-blank with 2..500, and a deadline is present; every reported message belongs to an annotation on the reported field; an error is reported exactly when it is the error of one annotation (`Violation`: `@NotBlank` or `@Size` on each text field, `@NotNull` on the deadline) whose value fails it, so each annotation's message appears under its field iff that annotation fails |
| `ProjectRequestDto.ErrorsNameViolatedFields` | src/main/java/org/project/dto/ProjectRequestDto.java:11-28 | the set of reported fields is exactly the set of fields whose constraints fail, field by field, in both directions |
| `ProjectRequestDto.EmptyNameBreaksBothConstraints` | src/main/java/org/project/dto/ProjectRequestDto.java:11-12 | an empty name breaks both the not-blank and the size annotation, so both messages are reported under `name` |
| `VacancyRequestDto.Errors` | src/main/java/org/project/dto/VacancyRequestDto.java:6-22 | no error is reported iff the name is non-blank with at most 255 characters, field, experience and country are absent or at most 255, and the description is absent or at most 1000; every reported message belongs to an annotation on the reported field; an error is reported exactly when it is the error of one annotation (`Violation`: `@NotBlank` and `@Size` on the name, `@Size` on the others) whose value fails it |
| `VacancyRequestDto.ErrorsNameViolatedFields` | src/main/java/org/project/dto/VacancyRequestDto.java:8-22 | the set of reported fields is exactly the set of fields whose constraints fail, field by field, in both directions |
| `VacancyRequestDto.OneCharacterNameIsValid` | src/main/java/org/project/dto/VacancyRequestDto.java:8-22 | no vacancy field has a minimum length: one visible character is a valid name and every optional field may be absent |
| `ExceptionHandler.FoldErrorsKeys` | src/main/java/org/project/handler/GlobalExceptionHandler.java:24-29 | the error map's keys are exactly the fields named in the error list |
| `ExceptionHandler.FoldErrorsLastWins` | src/main/java/org/project/handler/GlobalExceptionHandler.java:25-29 | when several errors name one field, the map holds the message of the last of them |
| `ExceptionHandler.FoldErrorsValueIsLast` | src/main/java/org/project/handler/GlobalExceptionHandler.java:25-29 | every value in the map is the message of an error on that field with no later error on the same field |
| `ExceptionHandler.HandleValidationExceptions` | src/main/java/org/project/handler/GlobalExceptionHandler.java:22-31 | the loop that starts from an empty map and puts one key per error answers 400 with exactly the fold of the list, whose keys are the reported fields |
| `ExceptionHandler.Handle` | src/main/java/org/project/handler/GlobalExceptionHandler.java:17-36 | a not-found failure answers 404 and an already-exists failure 409, each with the failure's message as body; a validation failure answers 400 with the field map; in each case the status identifies the kind in both directions; any other failure gets no answer |
| `Services.ToException` | src/main/java/org/project/service/ProjectServiceImpl.java:26-36 | project and vacancy not-found failures are thrown as not-found exceptions, a duplicate name as an already-exists exception, and a non-unique name query as an exception no handler takes |
| `Services.Digits` | src/main/java/org/project/service/ProjectServiceImpl.java:28 | the id in a not-found message is a non-empty string of decimal digits, with no leading zero unless the id is 0, whose value is the id |
| `Services.Store.GetAll` | src/main/java/org/project/service/ProjectServiceImpl.java:21-23 | every stored project is returned, each found under its own id, as many as there are ids; nothing changes |
| `Services.Store.GetById` | src/main/java/org/project/service/ProjectServiceImpl.java:26-29 | a present id yields its stored record and an absent id yields ProjectNotFound; nothing changes |
| `Services.Store.Create` | src/main/java/org/project/service/ProjectServiceImpl.java:33-38 | when the name is free, exactly one record is inserted under the counter's current id, which is absent from the table, and the counter moves up by one; the record carries the request's fields. One project with that name gives ProjectAlreadyExists, and several give a failed name query; in both cases nothing changes. The vacancy table is untouched, and unique names stay unique |
| `Services.Store.Delete` | src/main/java/org/project/service/ProjectServiceImpl.java:42-45 | an absent id gives ProjectNotFound and removes nothing; a present id removes exactly that key; the vacancy table is untouched |
| `Services.Store.Update` | src/main/java/org/project/service/ProjectServiceImpl.java:49-59 | an absent id gives ProjectNotFound and saves nothing; a present id is overwritten with the request's five fields under the same id, and no other record or table changes |
| `Services.Store.GetByProjectId` | src/main/java/org/project/service/VacancyServiceImpl.java:24-29 | ProjectNotFound whenever the project is absent, whatever vacancies exist; otherwise exactly the vacancies whose project reference is that id |
| `Services.Store.AddVacancyToProject` | src/main/java/org/project/service/VacancyServiceImpl.java:33-46 | an absent project gives ProjectNotFound and inserts nothing. Otherwise one new vacancy is inserted under the vacancy counter's current id, which is absent from the table, and that counter moves up by one; the vacancy carries the request's five fields and refers to that project. The project table is never modified |
| `Services.Store.UpdateVacancy` | src/main/java/org/project/service/VacancyServiceImpl.java:50-60 | an absent id gives VacancyNotFound and saves nothing; a present id gets the request's five fields and keeps its id and its project reference; the project table is never modified |
| `Services.Store.DeleteVacancy` | src/main/java/org/project/service/VacancyServiceImpl.java:64-69 | an absent id gives VacancyNotFound and removes nothing; a present id removes exactly that key; the project table is never modified |
| `Scenarios.EmptyNameAnsweredUnderName` | src/test/java/org/project/controller/ProjectControllerTest.java:196-210 | whatever order or repetition the errors of an empty-name request come in, the answer's map has the key `name` with one of the name's two messages |
| `Scenarios.CreateThenGet` | src/main/java/org/project/service/ProjectServiceImpl.java:26-37 | create with a free name followed by get by the returned id yields the created record, which carries the request's fields |
| `Scenarios.CreateTwice` | src/main/java/org/project/service/ProjectServiceImpl.java:33-37 | a second create with the same name fails with ProjectAlreadyExists and inserts nothing beyond the first record |
| `Scenarios.UpdateTwice` | src/main/java/org/project/service/ProjectServiceImpl.java:49-59 | applying one update twice gives the same result and the same table as applying it once |
| `Scenarios.NeverIssuedId` | src/main/java/org/project/service/ProjectServiceImpl.java:26-45 | get, update and delete of an id the store never issued (below 1, or at or above the next id) all fail with ProjectNotFound and change neither table |
| `Scenarios.DeletedIdNotReissued` | src/main/java/org/project/service/ProjectServiceImpl.java:33-45 | after a project is deleted, a create with a free name succeeds under an id other than the deleted one |
| `Scenarios.RenameToHeldName` | src/main/java/org/project/service/ProjectServiceImpl.java:33-59 | renaming a project to another project's name succeeds and breaks name uniqueness; a later create with that name fails with an unanswered error |
| `Scenarios.DeleteProjectThenList` | src/main/java/org/project/service/VacancyServiceImpl.java:24-28 | the service deletes no vacancies with their project: after a project is deleted the vacancy table is unchanged (the maps have no foreign key), and listing its vacancies answers 404 with the not-found message |
| `Scenarios.MissingVacancy` | src/main/java/org/project/service/VacancyServiceImpl.java:50-69 | update and delete of an absent vacancy fail with VacancyNotFound, change nothing and answer 404 with the not-found message |
| `Scenarios.AlphaLifeCycle` | src/main/java/org/project/service/ProjectServiceImpl.java:26-45 | from an empty store, a valid project is created and read back unchanged; a second create answers 409; it is deleted; reading it again answers 404 |
| `Scenarios.VacancyLifeCycle` | src/main/java/org/project/service/VacancyServiceImpl.java:24-45 | a vacancy added under project `n` carries `projectId == n` and is the only one listed for it; after the project's deletion `n` is gone from the project table, the vacancy is still stored in the model's tables, which carry no foreign key, and listing answers 404 |

## Left out

- HTTP routing and the controllers are not modelled. This covers the success statuses (200, 201, 204) and the choice of which endpoints validate their body. The model proves that an invalid request is rejected and what the answer is. It does not model that the controller never calls the service for such a request.
- The order in which the validation layer lists errors is decided by the framework. `Errors` lists them in declaration order, and the fold lemmas hold for every order.
- The JPA repositories are replaced by the two maps. Transactions and concurrency are not modelled; the model is single-threaded, so the race between two creates with the same name is out of scope.
- The maps enforce no foreign key from a vacancy's `project_id` to the project table. Orphaned vacancies after a project delete are therefore the model's outcome, not established for the database: a schema with that foreign key would reject the delete with a failure no handler answers.
- Name equality in the uniqueness query (`findByName`) is exact character equality (`ProjectsNamed`), not the database's collation, which may ignore case or trailing spaces.
- The database's identity generator is modelled as a counter per table that starts at 1 and moves up by one per insert. The model relies only on it never reissuing an id.
- The mappers are field-for-field copies. `Store.Create` takes the request record in place of the entity the mapper builds from it.
- The vacancy entity's `deadline` column is not modelled, because the service never reads or writes it.
- Dates are opaque values, because no date arithmetic takes place.
- Java `Long` ids are unbounded integers here, so overflow of the identity counters is not modelled.
- Strings are sequences of characters. A character outside the Basic Multilingual Plane counts once here but twice in Java's `String.length()`.
- Services.Store.GetAll: returns the projects as a set. The order of the list the repository returns is not modelled.
- Services.Store.GetByProjectId: returns the vacancies as a set. The order of the list the repository returns is not modelled.
- `ClientJpaRepository` is not part of this model. It refers to an entity whose source is not available.
