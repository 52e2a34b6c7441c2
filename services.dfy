/** The project and vacancy services over their two tables. */
module Services {
  import opened Values
  import opened Entities
  import opened ExceptionHandler
  import P = ProjectRequestDto
  import V = VacancyRequestDto

  /** The domain failures the services raise. `NonUniqueName` is the
      repository's own failure when the single-result name query matches
      more than one row. */
  datatype Failure =
    | ProjectNotFound(id: int)
    | VacancyNotFound(id: int)
    | ProjectAlreadyExists(name: Text)
    | NonUniqueName(name: Text)

  /** What a service call returns: a value, or the failure it raised. */
  datatype Outcome<T> = Ok(value: T) | Fail(failure: Failure)

  function DigitChar(d: nat): (c: char)
    requires d < 10
    ensures '0' <= c <= '9' && c as int - '0' as int == d
  {
    ('0' as int + d) as char
  }

  /** The number a string of decimal digits denotes. */
  function DigitsValue(s: string): (v: nat)
    requires forall i :: 0 <= i < |s| ==> '0' <= s[i] <= '9'
  {
    if s == [] then 0 else DigitsValue(s[..|s| - 1]) * 10 + (s[|s| - 1] as int - '0' as int)
  }

  /** The decimal digits of `n`, without leading zeros. */
  function Digits(n: nat): (s: string)
    ensures |s| >= 1
    ensures forall i :: 0 <= i < |s| ==> '0' <= s[i] <= '9'
    ensures s[0] == '0' ==> n == 0
    ensures DigitsValue(s) == n
  {
    if n < 10 then [DigitChar(n)]
    else
      var s := Digits(n / 10) + [DigitChar(n % 10)];
      assert s[..|s| - 1] == Digits(n / 10);
      s
  }

  /** An id as Java's string concatenation renders a `Long`. */
  function DecimalText(n: int): (s: string)
    ensures |s| >= 1
    ensures s[0] == '-' <==> n < 0
  {
    if n < 0 then "-" + Digits(-n) else Digits(n)
  }

  /** A nullable string as Java's string concatenation renders it. */
  function NameText(name: Text): (text: string) {
    match name
    case None => "null"
    case Some(t) => t
  }

  /** The exception each failure is thrown as, with its message. */
  function ToException(f: Failure): (ex: Exception)
    ensures f.ProjectNotFound? || f.VacancyNotFound? <==> ex.NotFoundInApp?
    ensures f.ProjectAlreadyExists? <==> ex.AlreadyExists?
    ensures f.NonUniqueName? <==> ex.Unmapped?
    ensures !ex.MethodArgumentNotValid?
  {
    match f
    case ProjectNotFound(id) => NotFoundInApp("Project not found with id: " + DecimalText(id))
    case VacancyNotFound(id) => NotFoundInApp("Vacancy not found with id: " + DecimalText(id))
    case ProjectAlreadyExists(name) => AlreadyExists("Project already exists with name: " + NameText(name))
    case NonUniqueName(_) => Unmapped("query did not return a unique result")
  }

  /** The project carries the request's five fields. */
  predicate ProjectCarries(p: Project, r: P.ProjectRequest) {
    p.name == r.name && p.field == r.field && p.experience == r.experience
    && p.description == r.description && p.deadline == r.deadline
  }

  /** The vacancy carries the request's five fields. */
  predicate VacancyCarries(v: Vacancy, r: V.VacancyRequest) {
    v.name == r.name && v.field == r.field && v.experience == r.experience
    && v.country == r.country && v.description == r.description
  }

  /** The ids of the stored projects called `name` (what the name query finds). */
  function ProjectsNamed(projects: map<int, Project>, name: Text): (ids: set<int>) {
    set id | id in projects && projects[id].name == name
  }

  lemma NamedHasId(projects: map<int, Project>, name: Text, id: int)
    requires id in projects && projects[id].name == name
    ensures id in ProjectsNamed(projects, name)
  {
  }

  /** No two stored projects share a name. */
  predicate NamesUnique(projects: map<int, Project>) {
    forall a, b :: a in projects && b in projects && projects[a].name == projects[b].name ==> a == b
  }

  lemma SomeId(ids: set<int>) returns (id: int)
    requires ids != {}
    ensures id in ids
  {
    if forall k :: k !in ids {
      assert false;
    }
    id :| id in ids;
  }

  lemma ValueHasKey(projects: map<int, Project>, p: Project)
    requires p in projects.Values
    ensures exists id :: id in projects && projects[id] == p
  {
    if forall id :: id in projects ==> projects[id] != p {
      assert false;
    }
  }

  /** A table whose every record is stored under its own id lists each
      record once: there are as many records as ids. */
  lemma {:induction false} RecordsAsManyAsIds(projects: map<int, Project>)
    requires forall id :: id in projects ==> projects[id].id == id
    ensures |projects.Values| == |projects.Keys|
    decreases |projects.Keys|
  {
    if projects.Keys != {} {
      var id := SomeId(projects.Keys);
      var rest := projects - {id};
      RecordsAsManyAsIds(rest);
      forall p | p in projects.Values ensures p in rest.Values + {projects[id]} {
        ValueHasKey(projects, p);
        var k :| k in projects && projects[k] == p;
        if k != id {
          assert k in rest;
        }
      }
      forall p | p in rest.Values ensures p in projects.Values {
        ValueHasKey(rest, p);
        var k :| k in rest && rest[k] == p;
        assert k in projects;
      }
      assert projects.Values == rest.Values + {projects[id]};
      assert projects.Keys == rest.Keys + {id};
      forall k | k in rest ensures rest[k] != projects[id] {
        assert rest[k].id == k;
      }
      assert projects[id] !in rest.Values by {
        if projects[id] in rest.Values {
          ValueHasKey(rest, projects[id]);
          assert false;
        }
      }
    }
  }

  /** Both tables and the identity counters of their id columns; the
      repositories of the source are replaced by these maps. */
  class Store {
    var projects: map<int, Project>
    var vacancies: map<int, Vacancy>
    var nextProjectId: int
    var nextVacancyId: int

    /** Every record is stored under its own id, and every id was issued
        before the counter's current value. */
    ghost predicate Valid()
      reads this
    {
      && 1 <= nextProjectId && 1 <= nextVacancyId
      && (forall id :: id in projects ==> projects[id].id == id && 1 <= id < nextProjectId)
      && (forall id :: id in vacancies ==> vacancies[id].id == id && 1 <= id < nextVacancyId)
    }

    constructor ()
      ensures Valid()
      ensures projects == map[] && vacancies == map[]
    {
      projects := map[];
      vacancies := map[];
      nextProjectId := 1;
      nextVacancyId := 1;
    }

    /** `getAll`: every stored project, once each. */
    method GetAll() returns (all: set<Project>)
      requires Valid()
      ensures forall id :: id in projects ==> projects[id] in all
      ensures forall p :: p in all ==> p.id in projects && projects[p.id] == p
      ensures |all| == |projects|
    {
      all := projects.Values;
      RecordsAsManyAsIds(projects);
    }

    /** `getById`: the stored project, or ProjectNotFound. */
    method GetById(id: int) returns (r: Outcome<Project>)
      requires Valid()
      ensures id in projects ==> r.Ok? && r.value == projects[id] && r.value.id == id
      ensures id !in projects ==> r == Fail(ProjectNotFound(id))
    {
      if id in projects {
        r := Ok(projects[id]);
      } else {
        r := Fail(ProjectNotFound(id));
      }
    }

    /** `create`: the name query decides. No match: the draft is saved under
        a fresh id. One match: ProjectAlreadyExists and nothing is saved.
        More than one match (names made equal by `update`): the query itself
        fails and nothing is saved. */
    method Create(draft: P.ProjectRequest) returns (r: Outcome<Project>)
      requires Valid()
      modifies this
      ensures Valid()
      ensures vacancies == old(vacancies) && nextVacancyId == old(nextVacancyId)
      ensures ProjectsNamed(old(projects), draft.name) == {} ==>
        && r.Ok? && r.value.id !in old(projects) && ProjectCarries(r.value, draft)
        && r.value.id == old(nextProjectId) && nextProjectId == old(nextProjectId) + 1
        && projects == old(projects)[r.value.id := r.value]
      ensures |ProjectsNamed(old(projects), draft.name)| == 1 ==>
        r == Fail(ProjectAlreadyExists(draft.name)) && unchanged(this)
      ensures |ProjectsNamed(old(projects), draft.name)| > 1 ==>
        r == Fail(NonUniqueName(draft.name)) && unchanged(this)
      ensures NamesUnique(old(projects)) ==> NamesUnique(projects)
    {
      var named := ProjectsNamed(projects, draft.name);
      if |named| > 1 {
        return Fail(NonUniqueName(draft.name));
      }
      if |named| == 1 {
        return Fail(ProjectAlreadyExists(draft.name));
      }
      assert named == {};
      forall id | id in projects ensures projects[id].name != draft.name {
        if projects[id].name == draft.name {
          NamedHasId(projects, draft.name, id);
          assert false;
        }
      }
      var project := Project(nextProjectId, draft.name, draft.field, draft.experience,
                             draft.description, draft.deadline);
      projects := projects[project.id := project];
      nextProjectId := nextProjectId + 1;
      r := Ok(project);
    }

    /** `delete`: looks the project up, then removes exactly its row. The
        vacancy table is not touched. */
    method Delete(id: int) returns (r: Outcome<()>)
      requires Valid()
      modifies this
      ensures Valid()
      ensures vacancies == old(vacancies)
      ensures nextProjectId == old(nextProjectId) && nextVacancyId == old(nextVacancyId)
      ensures id in old(projects) ==> r == Ok(()) && projects == old(projects) - {id}
      ensures id !in old(projects) ==> r == Fail(ProjectNotFound(id)) && projects == old(projects)
    {
      var found := GetById(id);
      if found.Fail? {
        return Fail(found.failure);
      }
      projects := projects - {found.value.id};
      r := Ok(());
    }

    /** `update`: looks the project up, sets its five fields from the
        request, and saves it back under the same id. No name check. */
    method Update(id: int, request: P.ProjectRequest) returns (r: Outcome<Project>)
      requires Valid()
      modifies this
      ensures Valid()
      ensures vacancies == old(vacancies)
      ensures nextProjectId == old(nextProjectId) && nextVacancyId == old(nextVacancyId)
      ensures id in old(projects) ==>
        && r.Ok? && r.value.id == id && ProjectCarries(r.value, request)
        && projects == old(projects)[id := r.value]
      ensures id !in old(projects) ==> r == Fail(ProjectNotFound(id)) && projects == old(projects)
    {
      r := GetById(id);
      if r.Fail? {
        return;
      }
      var project := r.value;
      project := project.(name := request.name);
      project := project.(field := request.field);
      project := project.(experience := request.experience);
      project := project.(description := request.description);
      project := project.(deadline := request.deadline);
      projects := projects[project.id := project];
      r := Ok(project);
    }

    /** `getByProjectId`: ProjectNotFound unless the project exists, whatever
        vacancies are stored; otherwise exactly the vacancies referring to it. */
    method GetByProjectId(projectId: int) returns (r: Outcome<set<Vacancy>>)
      requires Valid()
      ensures projectId !in projects ==> r == Fail(ProjectNotFound(projectId))
      ensures projectId in projects ==> r.Ok?
      ensures r.Ok? ==> forall v :: v in r.value <==> v in vacancies.Values && v.projectId == projectId
    {
      if projectId !in projects {
        return Fail(ProjectNotFound(projectId));
      }
      r := Ok(set v | v in vacancies.Values && v.projectId == projectId);
    }

    /** `addVacancyToProject`: looks the owning project up, builds a vacancy
        from the request that refers to it, and saves it under a fresh id. */
    method AddVacancyToProject(request: V.VacancyRequest, projectId: int) returns (r: Outcome<Vacancy>)
      requires Valid()
      modifies this
      ensures Valid()
      ensures projects == old(projects) && nextProjectId == old(nextProjectId)
      ensures projectId !in old(projects) ==> r == Fail(ProjectNotFound(projectId)) && unchanged(this)
      ensures projectId in old(projects) ==>
        && r.Ok? && r.value.id !in old(vacancies) && r.value.projectId == projectId
        && r.value.id == old(nextVacancyId) && nextVacancyId == old(nextVacancyId) + 1
        && VacancyCarries(r.value, request)
        && vacancies == old(vacancies)[r.value.id := r.value]
    {
      if projectId !in projects {
        return Fail(ProjectNotFound(projectId));
      }
      var project := projects[projectId];
      var vacancy := Vacancy(nextVacancyId, request.name, request.field, request.experience,
                             request.country, request.description, project.id);
      vacancies := vacancies[vacancy.id := vacancy];
      nextVacancyId := nextVacancyId + 1;
      r := Ok(vacancy);
    }

    /** `updateVacancy`: looks the vacancy up, sets its five descriptive
        fields from the request, and saves it back; its id and its project
        stay. */
    method UpdateVacancy(id: int, request: V.VacancyRequest) returns (r: Outcome<Vacancy>)
      requires Valid()
      modifies this
      ensures Valid()
      ensures projects == old(projects)
      ensures nextProjectId == old(nextProjectId) && nextVacancyId == old(nextVacancyId)
      ensures id in old(vacancies) ==>
        && r.Ok? && r.value.id == id && r.value.projectId == old(vacancies)[id].projectId
        && VacancyCarries(r.value, request)
        && vacancies == old(vacancies)[id := r.value]
      ensures id !in old(vacancies) ==> r == Fail(VacancyNotFound(id)) && vacancies == old(vacancies)
    {
      if id !in vacancies {
        return Fail(VacancyNotFound(id));
      }
      var vacancy := vacancies[id];
      vacancy := vacancy.(name := request.name);
      vacancy := vacancy.(field := request.field);
      vacancy := vacancy.(experience := request.experience);
      vacancy := vacancy.(country := request.country);
      vacancy := vacancy.(description := request.description);
      vacancies := vacancies[vacancy.id := vacancy];
      r := Ok(vacancy);
    }

    /** `deleteVacancy`: VacancyNotFound unless the row exists; otherwise
        removes exactly that row. */
    method DeleteVacancy(id: int) returns (r: Outcome<()>)
      requires Valid()
      modifies this
      ensures Valid()
      ensures projects == old(projects)
      ensures nextProjectId == old(nextProjectId) && nextVacancyId == old(nextVacancyId)
      ensures id in old(vacancies) ==> r == Ok(()) && vacancies == old(vacancies) - {id}
      ensures id !in old(vacancies) ==> r == Fail(VacancyNotFound(id)) && vacancies == old(vacancies)
    {
      if id !in vacancies {
        return Fail(VacancyNotFound(id));
      }
      vacancies := vacancies - {id};
      r := Ok(());
    }
  }
}
