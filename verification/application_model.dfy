/** `Application` (clubs/models/application_models.py): the default status, the
    duplicate queries and the guarded `save` of a new row. */
module ApplicationModel {
  import opened Base
  import opened Entities

  /** A row as `Application.objects.create` builds it when no status is given. */
  function NewApplication(u: UserId, c: ClubId, statement: string): (a: Application)
    ensures a.status == AppStatus.Pending && a.Open()
    ensures a.user == u && a.club == c && a.statement == statement
  {
    Application(u, c, statement, AppStatus.Pending)
  }

  /** `user_has_pending_application_to_the_same_club`. */
  predicate HasPendingTo(s: State, u: UserId, c: ClubId)
  {
    exists a | a in s.applications ::
      s.applications[a].user == u && s.applications[a].club == c && s.applications[a].status == AppStatus.Pending
  }

  /** `user_has_accepted_application_to_the_same_club`. */
  predicate HasAcceptedTo(s: State, u: UserId, c: ClubId)
  {
    exists a | a in s.applications ::
      s.applications[a].user == u && s.applications[a].club == c && s.applications[a].status == Accepted
  }

  /** `Application.cannot_be_created`. */
  predicate CannotBeCreated(s: State, u: UserId, c: ClubId)
  {
    HasPendingTo(s, u, c) || HasAcceptedTo(s, u, c)
  }

  /** Some application of `u` to `c` is still open (not Rejected). */
  ghost predicate HasOpenApplication(s: State, u: UserId, c: ClubId)
  {
    exists a | a in s.applications ::
      s.applications[a].user == u && s.applications[a].club == c && s.applications[a].Open()
  }

  /** `Application.save` of a new row: a Pending row is refused, and nothing is
      written, when the user already has an open application to that club; a row
      with any other status is written unchecked. */
  function InsertApplication(s: State, app: Application): (r: Result<(State, AppId)>)
    ensures r.Err? <==> app.status == AppStatus.Pending && HasOpenApplication(s, app.user, app.club)
    ensures r.Err? ==> r.error == IntegrityError
    ensures r.Ok? ==> r.value.0.applications == s.applications[r.value.1 := app]
    ensures r.Ok? ==> r.value.0 == s.(applications := r.value.0.applications, nextId := r.value.0.nextId)
    ensures r.Ok? ==> r.value.1 == s.nextId && r.value.0.nextId == s.nextId + 1
    ensures r.Ok? && CounterAhead(s) ==> r.value.1 !in s.applications && CounterAhead(r.value.0)
  {
    if app.status == AppStatus.Pending && CannotBeCreated(s, app.user, app.club) then
      Err(IntegrityError)
    else
      var id := s.nextId;
      Ok((s.(applications := s.applications[id := app], nextId := id + 1), id))
  }

  /** Only an open application of the same user to the same club can block a
      new Pending one: adding any other row never changes the verdict. */
  lemma OnlyOpenSamePairBlocks(s: State, app: Application, k: AppId, other: Application)
    requires k !in s.applications
    requires other.user != app.user || other.club != app.club || other.status == Rejected
    ensures InsertApplication(s.(applications := s.applications[k := other]), app).Ok?
        == InsertApplication(s, app).Ok?
  {
    var t := s.(applications := s.applications[k := other]);
    if HasOpenApplication(t, app.user, app.club) {
      var a :| a in t.applications && t.applications[a].user == app.user
        && t.applications[a].club == app.club && t.applications[a].Open();
      assert a != k && t.applications[a] == s.applications[a];
      assert HasOpenApplication(s, app.user, app.club);
    }
    if HasOpenApplication(s, app.user, app.club) {
      var a :| a in s.applications && s.applications[a].user == app.user
        && s.applications[a].club == app.club && s.applications[a].Open();
      assert a != k && t.applications[a] == s.applications[a];
      assert HasOpenApplication(t, app.user, app.club);
    }
  }

  /** The ids of the Accepted applications of `u` to `c`, the rows the views
      fetch with `Application.objects.get(status=ACCEPTED, ...)`. */
  function AcceptedFor(s: State, u: UserId, c: ClubId): (ids: set<AppId>)
    ensures forall a :: a in ids <==>
      a in s.applications && s.applications[a].user == u && s.applications[a].club == c
      && s.applications[a].status == Accepted
  {
    set a | a in s.applications && s.applications[a].user == u && s.applications[a].club == c
      && s.applications[a].status == Accepted
  }

  /** Saves of non-Pending rows are unchecked, so a second Accepted application
      of the same user to the same club is written next to the first. */
  lemma AcceptedDuplicatesCoexist(s: State, u: UserId, c: ClubId, k: AppId)
    requires CounterAhead(s)
    requires k in s.applications && s.applications[k] == Application(u, c, "", Accepted)
    ensures InsertApplication(s, Application(u, c, "", Accepted)).Ok?
    ensures |AcceptedFor(InsertApplication(s, Application(u, c, "", Accepted)).value.0, u, c)| >= 2
  {
    var r := InsertApplication(s, Application(u, c, "", Accepted));
    var t := r.value.0;
    var both := {k, s.nextId};
    assert k != s.nextId && |both| == 2;
    assert both <= AcceptedFor(t, u, c);
    assert AcceptedFor(t, u, c) == (AcceptedFor(t, u, c) - both) + both;
  }
}
