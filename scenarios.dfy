/** Properties that span several calls, stated as client code over the
    services and the failure translator. */
module Scenarios {
  import opened Values
  import opened Constraints
  import opened Entities
  import opened ExceptionHandler
  import opened Services
  import P = ProjectRequestDto
  import V = VacancyRequestDto

  /** A request whose empty name breaks both of its annotations is answered
      under the key `name` with one of the name's two messages, whatever
      order (and with whatever repetition) the validation layer lists the
      errors in. */
  lemma EmptyNameAnsweredUnderName(r: P.ProjectRequest, reported: seq<FieldError>)
    requires r.name == Some("")
    requires forall e :: e in reported <==> e in P.Errors(r)
    ensures "name" in FoldErrors(reported)
    ensures FoldErrors(reported)["name"] in {P.NameBlankMessage, P.ShortTextSizeMessage}
  {
    var errors := P.Errors(r);
    P.EmptyNameBreaksBothConstraints(r);
    var blank := FieldError("name", P.NameBlankMessage);
    assert blank in reported;
    FoldErrorsKeys(reported);
    var i := FoldErrorsValueIsLast(reported, "name");
    assert reported[i] in errors;
  }

  /** Create with a free name, then get by the returned id: the stored
      project carries the request's fields. */
  method CreateThenGet(s: Store, request: P.ProjectRequest) returns (created: Outcome<Project>, fetched: Outcome<Project>)
    requires s.Valid()
    requires ProjectsNamed(s.projects, request.name) == {}
    modifies s
    ensures s.Valid()
    ensures created.Ok? && fetched == created && ProjectCarries(fetched.value, request)
  {
    created := s.Create(request);
    fetched := s.GetById(created.value.id);
  }

  /** A second create with the same name fails with ProjectAlreadyExists and
      leaves the table as the first create left it. */
  method CreateTwice(s: Store, request: P.ProjectRequest) returns (first: Outcome<Project>, second: Outcome<Project>)
    requires s.Valid()
    requires ProjectsNamed(s.projects, request.name) == {}
    modifies s
    ensures s.Valid()
    ensures first.Ok? && ProjectCarries(first.value, request)
    ensures s.projects == old(s.projects)[first.value.id := first.value]
    ensures second == Fail(ProjectAlreadyExists(request.name))
  {
    first := s.Create(request);
    var id := first.value.id;
    forall k | k in s.projects && s.projects[k].name == request.name ensures k == id {
      if k != id {
        NamedHasId(old(s.projects), request.name, k);
        assert false;
      }
    }
    assert ProjectsNamed(s.projects, request.name) == {id};
    second := s.Create(request);
  }

  /** Repeating an update gives the same result and the same table as
      applying it once. */
  method UpdateTwice(s: Store, id: int, request: P.ProjectRequest) returns (first: Outcome<Project>, second: Outcome<Project>)
    requires s.Valid()
    modifies s
    ensures s.Valid()
    ensures first == second
    ensures id in old(s.projects) ==> first.Ok? && s.projects == old(s.projects)[id := first.value]
    ensures id !in old(s.projects) ==> s.projects == old(s.projects)
  {
    first := s.Update(id, request);
    second := s.Update(id, request);
  }

  /** An id the store never issued is absent: get, update and delete all
      fail with ProjectNotFound and change nothing. */
  method NeverIssuedId(s: Store, id: int, request: P.ProjectRequest)
    returns (got: Outcome<Project>, updated: Outcome<Project>, deleted: Outcome<()>)
    requires s.Valid()
    requires id < 1 || id >= s.nextProjectId
    modifies s
    ensures s.Valid()
    ensures got == Fail(ProjectNotFound(id)) && updated == Fail(ProjectNotFound(id))
    ensures deleted == Fail(ProjectNotFound(id))
    ensures s.projects == old(s.projects) && s.vacancies == old(s.vacancies)
  {
    got := s.GetById(id);
    updated := s.Update(id, request);
    deleted := s.Delete(id);
  }

  /** Ids come from a counter and are never handed out twice: a project
      created after a delete never takes the deleted project's id. */
  method DeletedIdNotReissued(s: Store, k: int, draft: P.ProjectRequest)
    returns (deleted: Outcome<()>, created: Outcome<Project>)
    requires s.Valid()
    requires k in s.projects && ProjectsNamed(s.projects, draft.name) == {}
    modifies s
    ensures s.Valid()
    ensures deleted == Ok(()) && created.Ok? && k !in s.projects
    ensures created.value.id != k && created.value.id in s.projects
  {
    deleted := s.Delete(k);
    assert ProjectsNamed(s.projects, draft.name) <= ProjectsNamed(old(s.projects), draft.name);
    created := s.Create(draft);
  }

  /** `update` does not check names: renaming a project to another's name
      succeeds, and afterwards a create with that name meets a name query
      with two matches, a failure no handler answers. */
  method RenameToHeldName(s: Store, a: int, b: int, request: P.ProjectRequest)
    returns (renamed: Outcome<Project>, recreated: Outcome<Project>, response: Option<Response>)
    requires s.Valid()
    requires a in s.projects && b in s.projects && a != b
    requires request.name == s.projects[a].name
    modifies s
    ensures s.Valid()
    ensures renamed.Ok? && !NamesUnique(s.projects)
    ensures recreated == Fail(NonUniqueName(request.name)) && response.None?
  {
    renamed := s.Update(b, request);
    assert s.projects[a].name == s.projects[b].name;
    NamedHasId(s.projects, request.name, a);
    NamedHasId(s.projects, request.name, b);
    var named := ProjectsNamed(s.projects, request.name);
    assert named == (named - {a, b}) + {a, b};
    assert |named| == |named - {a, b}| + |{a, b}|;
    recreated := s.Create(request);
    response := Handle(ToException(recreated.failure));
  }

  /** Deleting a project leaves the vacancies that refer to it in their
      table, while listing that project's vacancies now fails with 404. */
  method DeleteProjectThenList(s: Store, id: int)
    returns (deleted: Outcome<()>, listed: Outcome<set<Vacancy>>, response: Option<Response>)
    requires s.Valid()
    requires id in s.projects
    modifies s
    ensures s.Valid()
    ensures deleted == Ok(()) && id !in s.projects && s.vacancies == old(s.vacancies)
    ensures listed == Fail(ProjectNotFound(id))
    ensures response == Some(Response(NotFound, Message("Project not found with id: " + DecimalText(id))))
  {
    deleted := s.Delete(id);
    listed := s.GetByProjectId(id);
    response := Handle(ToException(listed.failure));
  }

  /** A vacancy operation on an absent vacancy answers 404 and changes nothing. */
  method MissingVacancy(s: Store, id: int, request: V.VacancyRequest)
    returns (updated: Outcome<Vacancy>, deleted: Outcome<()>, response: Option<Response>)
    requires s.Valid()
    requires id !in s.vacancies
    modifies s
    ensures s.Valid()
    ensures updated == Fail(VacancyNotFound(id)) && deleted == Fail(VacancyNotFound(id))
    ensures s.projects == old(s.projects) && s.vacancies == old(s.vacancies)
    ensures response == Some(Response(NotFound, Message("Vacancy not found with id: " + DecimalText(id))))
  {
    updated := s.UpdateVacancy(id, request);
    deleted := s.DeleteVacancy(id);
    response := Handle(ToException(deleted.failure));
  }

  /** The project life cycle from a fresh store: create "Alpha", read it
      back, create it again (409), delete it, read it again (404). */
  method AlphaLifeCycle()
    returns (created: Outcome<Project>, fetched: Outcome<Project>, again: Option<Response>,
             deleted: Outcome<()>, gone: Option<Response>)
    ensures P.Valid(P.ProjectRequest(Some("Alpha"), Some("IT"), Some("Mid"), Some("desc"), Some(Date(2025, 6, 1))))
    ensures created.Ok? && created.value.name == Some("Alpha") && fetched == created
    ensures again.Some? && again.value.status == Conflict
    ensures deleted == Ok(())
    ensures gone.Some? && gone.value.status == NotFound
  {
    var alpha := P.ProjectRequest(Some("Alpha"), Some("IT"), Some("Mid"), Some("desc"), Some(Date(2025, 6, 1)));
    assert "Alpha"[0] > ' ' && "IT"[0] > ' ' && "Mid"[0] > ' ' && "desc"[0] > ' ';
    var s := new Store();
    var duplicate;
    created, duplicate := CreateTwice(s, alpha);
    var n := created.value.id;
    fetched := s.GetById(n);
    again := Handle(ToException(duplicate.failure));
    deleted := s.Delete(n);
    var missing := s.GetById(n);
    gone := Handle(ToException(missing.failure));
  }

  /** A vacancy added under a project refers to it and is listed with it;
      after the project is deleted the vacancy is still stored, and listing
      answers 404. */
  method VacancyLifeCycle()
    returns (n: int, added: Outcome<Vacancy>, listed: Outcome<set<Vacancy>>, afterDelete: Option<Response>,
             projects: map<int, Project>, remaining: map<int, Vacancy>)
    ensures added.Ok? && added.value.name == Some("Dev") && added.value.projectId == n
    ensures listed.Ok? && listed.value == {added.value}
    ensures afterDelete.Some? && afterDelete.value.status == NotFound
    ensures n !in projects && added.value in remaining.Values
  {
    var s := new Store();
    var project := s.Create(P.ProjectRequest(Some("Alpha"), Some("IT"), Some("Mid"), Some("desc"), Some(Date(2025, 6, 1))));
    n := project.value.id;
    added := s.AddVacancyToProject(V.VacancyRequest(Some("Dev"), None, None, None, None), n);
    listed := s.GetByProjectId(n);
    assert s.vacancies == map[added.value.id := added.value];
    var deleted, orphaned;
    deleted, orphaned, afterDelete := DeleteProjectThenList(s, n);
    projects := s.projects;
    remaining := s.vacancies;
    assert remaining[added.value.id] == added.value;
  }
}
