/** The views of the application workflow: a user applies to a club, lists
    and cancels their applications (clubs/views/application_views.py), and an
    Officer of the club lists, accepts and rejects the pending ones
    (clubs/views/club_views/club_application_views.py). */
module ApplicationViews {
  import opened Base
  import opened Entities
  import opened Roles
  import opened ApplicationModel
  import opened Invariants
  import opened Fields

  /** The clubs carrying the given name: what the form's club field, a
      `ModelChoiceField` keyed on `name`, looks up. */
  function ClubsNamed(s: State, name: string): (ids: set<ClubId>)
    ensures forall c :: c in ids <==> c in s.clubs && s.clubs[c].name == name
  {
    set c | c in s.clubs && s.clubs[c].name == name
  }

  /** The loop at the top of `NewApplicationView.post`: the user has a Pending
      or Accepted application to a club whose name is the posted one. */
  predicate AlreadyApplied(s: State, u: UserId, name: string)
  {
    exists a | a in s.applications ::
      && s.applications[a].user == u && s.applications[a].Open()
      && s.applications[a].club in s.clubs && s.clubs[s.applications[a].club].name == name
  }

  /** The write of a successful application: the row at the next id. */
  function File(s: State, app: Application): (t: State)
    ensures t.applications == s.applications[s.nextId := app] && t.nextId == s.nextId + 1
    ensures t == s.(applications := t.applications, nextId := t.nextId)
  {
    s.(applications := s.applications[s.nextId := app], nextId := s.nextId + 1)
  }

  /** `NewApplicationView.post`. An open application to a club of that name
      stops the request first. Then the form cleans the club name (blank is a
      field error, no club of that name is a field error, two clubs of that
      name make `get` raise) and the statement, and the row is created. The
      save guard of the row never fires, because the first check already looked
      for every open application to that club. */
  function NewApplication(s: State, actor: UserId, clubName: string, statement: string): (r: Response)
    ensures r.outcome == Refused <==> AlreadyApplied(s, actor, clubName)
    ensures r.outcome == Done <==>
      && !AlreadyApplied(s, actor, clubName) && clubName != ""
      && |ClubsNamed(s, clubName)| == 1 && StatementValid(statement)
    ensures r.outcome == Done ==>
      r.state == File(s, ApplicationModel.NewApplication(actor, Pick(ClubsNamed(s, clubName)), statement))
    ensures r.outcome.ServerError? <==>
      !AlreadyApplied(s, actor, clubName) && clubName != "" && |ClubsNamed(s, clubName)| > 1
    ensures r.outcome.ServerError? ==> r.outcome.error == MultipleObjectsReturned
    ensures r.outcome.Invalid? <==>
      && !AlreadyApplied(s, actor, clubName)
      && (clubName == "" || ClubsNamed(s, clubName) == {} || (|ClubsNamed(s, clubName)| == 1 && !StatementValid(statement)))
    ensures r.outcome != Done ==> r.state == s
  {
    if AlreadyApplied(s, actor, clubName) then Response(s, Refused)
    else if clubName == "" then Response(s, Invalid(BadFields))
    else
      match GetOne(ClubsNamed(s, clubName))
      case Err(e) =>
        if e == MultipleObjectsReturned then Response(s, ServerError(e))
        else Response(s, Invalid(BadFields))
      case Ok(c) =>
        if !StatementValid(statement) then Response(s, Invalid(BadFields))
        else
          var app := ApplicationModel.NewApplication(actor, c, statement);
          assert !HasOpenApplication(s, actor, c);
          var (t, _) := InsertApplication(s, app).value;
          Response(t, Done)
  }

  /** `ApplicationListView`: the applications of the logged-in user. */
  function ApplicationList(s: State, actor: UserId): (ids: set<AppId>)
    ensures forall a :: a in ids <==> a in s.applications && s.applications[a].user == actor
  {
    set a | a in s.applications && s.applications[a].user == actor
  }

  /** `CancelApplicationView`: the user's own application is looked up by id;
      a Pending one is deleted, a decided one is kept. */
  function CancelApplication(s: State, actor: UserId, id: AppId): (r: Response)
    ensures r.outcome == NotFound <==> id !in ApplicationList(s, actor)
    ensures r.outcome == Done <==>
      id in ApplicationList(s, actor) && s.applications[id].status == AppStatus.Pending
    ensures r.outcome == Refused <==>
      id in ApplicationList(s, actor) && s.applications[id].status != AppStatus.Pending
    ensures r.outcome == Done ==> r.state == s.(applications := s.applications - {id})
    ensures r.outcome != Done ==> r.state == s
  {
    if id !in s.applications || s.applications[id].user != actor then Response(s, NotFound)
    else if s.applications[id].status == AppStatus.Pending then
      Response(s.(applications := s.applications - {id}), Done)
    else Response(s, Refused)
  }

  /** Cancelling an application right after submitting it removes the row
      again: every table is as before, only the id counter has moved on. */
  lemma CancelUndoesNewApplication(s: State, actor: UserId, clubName: string, statement: string)
    requires CounterAhead(s)
    requires NewApplication(s, actor, clubName, statement).outcome == Done
    ensures CancelApplication(NewApplication(s, actor, clubName, statement).state, actor, s.nextId)
         == Response(s.(nextId := s.nextId + 1), Done)
  {
    var t := NewApplication(s, actor, clubName, statement).state;
    assert s.nextId !in s.applications;
    assert t.applications - {s.nextId} == s.applications;
  }

  /** The lists of different users split the application table: every
      application is listed for its applicant and for nobody else. */
  lemma ApplicationListsSplitTheTable(s: State, u: UserId, v: UserId)
    ensures u != v ==> ApplicationList(s, u) * ApplicationList(s, v) == {}
    ensures forall a | a in s.applications :: a in ApplicationList(s, s.applications[a].user)
  {
  }

  /** Cancelling takes exactly the cancelled application off the user's list,
      and filing puts exactly the new one on it. */
  lemma ListFollowsCancelAndNewApplication(s: State, actor: UserId, id: AppId, clubName: string, statement: string)
    requires CounterAhead(s)
    ensures CancelApplication(s, actor, id).outcome == Done ==>
      ApplicationList(CancelApplication(s, actor, id).state, actor) == ApplicationList(s, actor) - {id}
    ensures NewApplication(s, actor, clubName, statement).outcome == Done ==>
      ApplicationList(NewApplication(s, actor, clubName, statement).state, actor)
        == ApplicationList(s, actor) + {s.nextId}
  {
  }

  /** A second application to the same club is refused while the first is
      still pending. */
  lemma SecondApplicationRefused(s: State, actor: UserId, clubName: string, statement: string, again: string)
    requires NewApplication(s, actor, clubName, statement).outcome == Done
    ensures NewApplication(NewApplication(s, actor, clubName, statement).state, actor, clubName, again).outcome
         == Refused
  {
    var c := Pick(ClubsNamed(s, clubName));
    var t := NewApplication(s, actor, clubName, statement).state;
    assert t.applications[s.nextId].club == c && t.clubs == s.clubs;
  }

  /** `ChangeApplication.post` looks the application up by id within the route
      club. */
  predicate InClub(s: State, c: ClubId, id: AppId)
  {
    id in s.applications && s.applications[id].club == c
  }

  /** The writes of an acceptance: the application becomes Accepted and the
      applicant a Member. */
  function Admission(s: State, id: AppId): (t: State)
    requires id in s.applications
    ensures t.applications == s.applications[id := s.applications[id].(status := Accepted)]
    ensures t.roles == s.roles[(s.applications[id].user, s.applications[id].club) := Member]
    ensures t == s.(applications := t.applications, roles := t.roles)
  {
    var app := s.applications[id];
    s.(applications := s.applications[id := app.(status := Accepted)],
       roles := s.roles[(app.user, app.club) := Member])
  }

  /** `AcceptApplicationView`: an Officer of the club accepts a Pending
      application. The status is saved first; the membership insert then
      raises, with the status already written, when the applicant already has
      a membership of the club. A decided application is left alone. */
  function AcceptApplication(s: State, actor: UserId, c: ClubId, id: AppId): (r: Response)
    ensures r.outcome == NotFound <==> Admit(s, actor, c, OfficerRequired) == None && !InClub(s, c, id)
    ensures r.outcome == Refused <==>
      Admit(s, actor, c, OfficerRequired) == None && InClub(s, c, id)
      && s.applications[id].status != AppStatus.Pending
    ensures r.outcome == Done <==>
      && Admit(s, actor, c, OfficerRequired) == None && InClub(s, c, id)
      && s.applications[id].status == AppStatus.Pending && (s.applications[id].user, c) !in s.roles
    ensures r.outcome == Done ==> r.state == Admission(s, id)
    ensures r.outcome == Done ==> IsMemberOf(r.state, s.applications[id].user, c)
    ensures r.outcome.ServerError? ==>
      && InClub(s, c, id) && r.outcome.error == IntegrityError && (s.applications[id].user, c) in s.roles
      && r.state == s.(applications := s.applications[id := s.applications[id].(status := Accepted)])
    ensures !r.outcome.ServerError? && r.outcome != Done ==> r.state == s
  {
    match Admit(s, actor, c, OfficerRequired)
    case Some(refusal) => Response(s, refusal)
    case None =>
      if !InClub(s, c, id) then Response(s, NotFound)
      else
        var app := s.applications[id];
        if app.status == AppStatus.Pending then
          var s1 := s.(applications := s.applications[id := app.(status := Accepted)]);
          match CreateMembership(s1, app.user, c, Member)
          case Err(e) => Response(s1, ServerError(e))
          case Ok(s2) => Response(s2, Done)
        else Response(s, Refused)
  }

  /** `RejectApplicationView`: an Officer of the club rejects a Pending
      application. */
  function RejectApplication(s: State, actor: UserId, c: ClubId, id: AppId): (r: Response)
    ensures r.outcome == NotFound <==> Admit(s, actor, c, OfficerRequired) == None && !InClub(s, c, id)
    ensures r.outcome == Refused <==>
      Admit(s, actor, c, OfficerRequired) == None && InClub(s, c, id)
      && s.applications[id].status != AppStatus.Pending
    ensures r.outcome == Done <==>
      Admit(s, actor, c, OfficerRequired) == None && InClub(s, c, id)
      && s.applications[id].status == AppStatus.Pending
    ensures r.outcome == Done ==> r.state == Rejection(s, id)
    ensures r.outcome != Done ==> r.state == s
  {
    match Admit(s, actor, c, OfficerRequired)
    case Some(refusal) => Response(s, refusal)
    case None =>
      if !InClub(s, c, id) then Response(s, NotFound)
      else
        var app := s.applications[id];
        if app.status == AppStatus.Pending then Response(Rejection(s, id), Done)
        else Response(s, Refused)
  }

  /** A decision is final: once accepted or rejected, an application can be
      neither accepted nor rejected again. */
  lemma DecisionsAreFinal(s: State, actor: UserId, c: ClubId, id: AppId, other: UserId)
    ensures AcceptApplication(s, actor, c, id).outcome == Done ==>
      && AcceptApplication(AcceptApplication(s, actor, c, id).state, other, c, id).outcome != Done
      && RejectApplication(AcceptApplication(s, actor, c, id).state, other, c, id).outcome != Done
    ensures RejectApplication(s, actor, c, id).outcome == Done ==>
      && AcceptApplication(RejectApplication(s, actor, c, id).state, other, c, id).outcome != Done
      && RejectApplication(RejectApplication(s, actor, c, id).state, other, c, id).outcome != Done
  {
  }

  /** `ClubApplicationsView`: the Pending applications of the club, shown to
      its Officers and Owner. */
  function ClubApplications(s: State, actor: UserId, c: ClubId): (p: Page<set<AppId>>)
    ensures p.Shown? <==> Admit(s, actor, c, OfficerRequired) == None
    ensures p.Withheld? ==> Some(p.reason) == Admit(s, actor, c, OfficerRequired)
  {
    match Admit(s, actor, c, OfficerRequired)
    case Some(refusal) => Withheld(refusal)
    case None =>
      Shown(set a | a in s.applications && s.applications[a].club == c
                       && s.applications[a].status == AppStatus.Pending)
  }

  /** The list holds exactly the applications the same Officer can act on:
      every listed one can be accepted or rejected, and any other id is either
      not the club's or already decided. */
  lemma ClubApplicationsAreTheActionableOnes(s: State, actor: UserId, c: ClubId, id: AppId)
    requires ClubApplications(s, actor, c).Shown?
    ensures id in ClubApplications(s, actor, c).value <==>
      RejectApplication(s, actor, c, id).outcome == Done
    ensures id in ClubApplications(s, actor, c).value <==>
      AcceptApplication(s, actor, c, id).outcome !in {NotFound, Refused}
  {
  }

  /** In a good database a listed application can always be accepted: its
      applicant is not yet a member, so the membership insert never raises. */
  lemma AcceptNeverRaises(s: State, actor: UserId, c: ClubId, id: AppId)
    requires AtMostOneOpenApplication(s) && MembershipsMatchAcceptance(s)
    ensures !AcceptApplication(s, actor, c, id).outcome.ServerError?
  {
    if InClub(s, c, id) && s.applications[id].status == AppStatus.Pending {
      PendingApplicantIsNoMember(s, id);
    }
  }

  // Preservation of the invariants.

  lemma FilingKeepsCounterAndReferences(s: State, app: Application)
    requires CounterAhead(s) && RowsReferToLiveRows(s)
    requires app.user in s.users && app.club in s.clubs
    ensures CounterAhead(File(s, app)) && RowsReferToLiveRows(File(s, app))
  {
  }

  lemma FilingKeepsColumns(s: State, app: Application)
    requires NoSelfMatch(s) && UniqueColumns(s)
    ensures NoSelfMatch(File(s, app)) && UniqueColumns(File(s, app))
  {
  }

  lemma FilingKeepsOneOpen(s: State, app: Application)
    requires AtMostOneOpenApplication(s) && CounterAhead(s)
    requires !HasOpenApplication(s, app.user, app.club)
    ensures AtMostOneOpenApplication(File(s, app))
  {
    var t := File(s, app);
    forall x, y | x in t.applications && y in t.applications
      && t.applications[x].Open() && t.applications[y].Open()
      && t.applications[x].user == t.applications[y].user
      && t.applications[x].club == t.applications[y].club
      ensures x == y
    {
      if x != s.nextId && y != s.nextId {
        assert t.applications[x] == s.applications[x] && t.applications[y] == s.applications[y];
      }
    }
  }

  lemma FilingPendingKeepsAcceptance(s: State, app: Application)
    requires MembershipsMatchAcceptance(s) && CounterAhead(s)
    requires app.status == AppStatus.Pending
    ensures MembershipsMatchAcceptance(File(s, app))
  {
    var t := File(s, app);
    forall p | p in t.roles
      ensures HasAcceptedTo(t, p.0, p.1)
    {
      assert HasAcceptedTo(s, p.0, p.1);
      var b :| b in s.applications && s.applications[b].user == p.0
        && s.applications[b].club == p.1 && s.applications[b].status == Accepted;
      assert t.applications[b] == s.applications[b];
    }
  }

  lemma FilingKeepsGood(s: State, app: Application)
    requires Good(s) && app.status == AppStatus.Pending
    requires app.user in s.users && app.club in s.clubs
    requires !HasOpenApplication(s, app.user, app.club)
    ensures Good(File(s, app))
  {
    var t := File(s, app);
    FilingKeepsCounterAndReferences(s, app);
    FilingKeepsColumns(s, app);
    FilingKeepsOneOpen(s, app);
    FilingPendingKeepsAcceptance(s, app);
    SameRolesSameOwners(s, t);
  }

  lemma NewApplicationDoneKeepsGood(s: State, actor: UserId, clubName: string, statement: string)
    requires Good(s) && actor in s.users
    requires NewApplication(s, actor, clubName, statement).outcome == Done
    ensures Good(NewApplication(s, actor, clubName, statement).state)
  {
    var c := Pick(ClubsNamed(s, clubName));
    var app := ApplicationModel.NewApplication(actor, c, statement);
    assert !HasOpenApplication(s, actor, c);
    FilingKeepsGood(s, app);
  }

  /** In a good database two clubs never share a name, so applying never
      raises; and it keeps the database good. */
  lemma NewApplicationPreservesGood(s: State, actor: UserId, clubName: string, statement: string)
    requires Good(s) && actor in s.users
    ensures !NewApplication(s, actor, clubName, statement).outcome.ServerError?
    ensures Good(NewApplication(s, actor, clubName, statement).state)
  {
    assert |ClubsNamed(s, clubName)| <= 1 by {
      UniqueNamesMeanOneClub(s, clubName);
    }
    if NewApplication(s, actor, clubName, statement).outcome == Done {
      NewApplicationDoneKeepsGood(s, actor, clubName, statement);
    }
  }

  lemma UniqueNamesMeanOneClub(s: State, name: string)
    requires UniqueColumns(s)
    ensures |ClubsNamed(s, name)| <= 1
  {
    var ids := ClubsNamed(s, name);
    if ids != {} {
      var c :| c in ids;
      assert ids == {c};
    }
  }

  /** Deleting an application that is not Accepted keeps the database's
      rows shrinking and every membership backed. */
  lemma UnfilingKeepsAcceptance(s: State, id: AppId)
    requires MembershipsMatchAcceptance(s)
    requires id in s.applications && s.applications[id].status != Accepted
    ensures MembershipsMatchAcceptance(s.(applications := s.applications - {id}))
  {
    var t := s.(applications := s.applications - {id});
    forall p | p in t.roles
      ensures HasAcceptedTo(t, p.0, p.1)
    {
      assert HasAcceptedTo(s, p.0, p.1);
      var b :| b in s.applications && s.applications[b].user == p.0
        && s.applications[b].club == p.1 && s.applications[b].status == Accepted;
      assert b != id && b in t.applications;
    }
  }

  lemma UnfilingShrinks(s: State, id: AppId)
    requires RowsReferToLiveRows(s)
    ensures Shrinks(s, s.(applications := s.applications - {id}))
    ensures RowsReferToLiveRows(s.(applications := s.applications - {id}))
  {
  }

  lemma UnfilingKeepsGood(s: State, id: AppId)
    requires Good(s)
    requires id in s.applications && s.applications[id].status != Accepted
    ensures Good(s.(applications := s.applications - {id}))
  {
    var t := s.(applications := s.applications - {id});
    UnfilingShrinks(s, id);
    ShrinkingKeepsCounter(s, t);
    ShrinkingKeepsOneOpen(s, t);
    ShrinkingKeepsNoSelfMatch(s, t);
    ShrinkingKeepsUniqueColumns(s, t);
    UnfilingKeepsAcceptance(s, id);
    SameRolesSameOwners(s, t);
  }

  lemma CancelDoneKeepsGood(s: State, actor: UserId, id: AppId)
    requires Good(s)
    requires CancelApplication(s, actor, id).outcome == Done
    ensures Good(CancelApplication(s, actor, id).state)
  {
    UnfilingKeepsGood(s, id);
  }

  lemma CancelPreservesGood(s: State, actor: UserId, id: AppId)
    requires Good(s)
    ensures Good(CancelApplication(s, actor, id).state)
  {
    if CancelApplication(s, actor, id).outcome == Done {
      CancelDoneKeepsGood(s, actor, id);
    }
  }

  lemma AdmissionKeepsCounterAndReferences(s: State, id: AppId)
    requires CounterAhead(s) && RowsReferToLiveRows(s)
    requires id in s.applications
    ensures CounterAhead(Admission(s, id)) && RowsReferToLiveRows(Admission(s, id))
  {
  }

  lemma AdmissionKeepsColumns(s: State, id: AppId)
    requires NoSelfMatch(s) && UniqueColumns(s)
    requires id in s.applications
    ensures NoSelfMatch(Admission(s, id)) && UniqueColumns(Admission(s, id))
  {
  }

  lemma AdmissionKeepsOneOpen(s: State, id: AppId)
    requires AtMostOneOpenApplication(s)
    requires id in s.applications && s.applications[id].Open()
    ensures AtMostOneOpenApplication(Admission(s, id))
  {
    var t := Admission(s, id);
    forall x, y | x in t.applications && y in t.applications
      && t.applications[x].Open() && t.applications[y].Open()
      && t.applications[x].user == t.applications[y].user
      && t.applications[x].club == t.applications[y].club
      ensures x == y
    {
      assert s.applications[x].Open() && s.applications[y].Open();
    }
  }

  lemma AdmissionKeepsAcceptance(s: State, id: AppId)
    requires MembershipsMatchAcceptance(s)
    requires id in s.applications
    ensures MembershipsMatchAcceptance(Admission(s, id))
  {
    var t := Admission(s, id);
    var app := s.applications[id];
    forall p | p in t.roles
      ensures HasAcceptedTo(t, p.0, p.1)
    {
      if p == (app.user, app.club) {
        assert t.applications[id].status == Accepted;
      } else {
        assert HasAcceptedTo(s, p.0, p.1);
        var b :| b in s.applications && s.applications[b].user == p.0
          && s.applications[b].club == p.1 && s.applications[b].status == Accepted;
        assert b != id && t.applications[b] == s.applications[b];
      }
    }
  }

  lemma AdmissionKeepsGood(s: State, id: AppId)
    requires Good(s)
    requires id in s.applications && s.applications[id].status == AppStatus.Pending
    ensures Good(Admission(s, id))
  {
    var t := Admission(s, id);
    var app := s.applications[id];
    PendingApplicantIsNoMember(s, id);
    AdmissionKeepsCounterAndReferences(s, id);
    AdmissionKeepsColumns(s, id);
    AdmissionKeepsOneOpen(s, id);
    AdmissionKeepsAcceptance(s, id);
    assert OneOwnerPerClub(t) by {
      AddingNonOwnerKeepsOwners(s, t, app.user, app.club);
      assert OneOwnerPerClub(s);
    }
  }

  lemma AcceptPreservesGood(s: State, actor: UserId, c: ClubId, id: AppId)
    requires Good(s)
    ensures Good(AcceptApplication(s, actor, c, id).state)
  {
    var r := AcceptApplication(s, actor, c, id);
    if InClub(s, c, id) && s.applications[id].status == AppStatus.Pending {
      PendingApplicantIsNoMember(s, id);
    }
    if r.outcome == Done {
      AdmissionKeepsGood(s, id);
    }
  }

  /** The write of a rejection. */
  function Rejection(s: State, id: AppId): (t: State)
    requires id in s.applications
    ensures t.applications == s.applications[id := s.applications[id].(status := Rejected)]
    ensures t == s.(applications := t.applications)
  {
    s.(applications := s.applications[id := s.applications[id].(status := Rejected)])
  }

  lemma RejectionKeepsCounterAndReferences(s: State, id: AppId)
    requires CounterAhead(s) && RowsReferToLiveRows(s)
    requires id in s.applications
    ensures CounterAhead(Rejection(s, id)) && RowsReferToLiveRows(Rejection(s, id))
  {
  }

  lemma RejectionKeepsColumns(s: State, id: AppId)
    requires NoSelfMatch(s) && UniqueColumns(s)
    requires id in s.applications
    ensures NoSelfMatch(Rejection(s, id)) && UniqueColumns(Rejection(s, id))
  {
  }

  lemma RejectionKeepsOneOpen(s: State, id: AppId)
    requires AtMostOneOpenApplication(s)
    requires id in s.applications
    ensures AtMostOneOpenApplication(Rejection(s, id))
  {
    var t := Rejection(s, id);
    forall x, y | x in t.applications && y in t.applications
      && t.applications[x].Open() && t.applications[y].Open()
      && t.applications[x].user == t.applications[y].user
      && t.applications[x].club == t.applications[y].club
      ensures x == y
    {
      assert s.applications[x].Open() && s.applications[y].Open();
    }
  }

  lemma RejectionKeepsAcceptance(s: State, id: AppId)
    requires MembershipsMatchAcceptance(s)
    requires id in s.applications && s.applications[id].status != Accepted
    ensures MembershipsMatchAcceptance(Rejection(s, id))
  {
    var t := Rejection(s, id);
    forall p | p in t.roles
      ensures HasAcceptedTo(t, p.0, p.1)
    {
      assert HasAcceptedTo(s, p.0, p.1);
      var b :| b in s.applications && s.applications[b].user == p.0
        && s.applications[b].club == p.1 && s.applications[b].status == Accepted;
      assert b != id && t.applications[b] == s.applications[b];
    }
  }

  lemma RejectionKeepsGood(s: State, id: AppId)
    requires Good(s)
    requires id in s.applications && s.applications[id].status != Accepted
    ensures Good(Rejection(s, id))
  {
    RejectionKeepsCounterAndReferences(s, id);
    RejectionKeepsColumns(s, id);
    RejectionKeepsOneOpen(s, id);
    RejectionKeepsAcceptance(s, id);
    SameRolesSameOwners(s, Rejection(s, id));
  }

  lemma RejectDoneKeepsGood(s: State, actor: UserId, c: ClubId, id: AppId)
    requires Good(s)
    requires RejectApplication(s, actor, c, id).outcome == Done
    ensures Good(RejectApplication(s, actor, c, id).state)
  {
    RejectionKeepsGood(s, id);
  }

  lemma RejectPreservesGood(s: State, actor: UserId, c: ClubId, id: AppId)
    requires Good(s)
    ensures Good(RejectApplication(s, actor, c, id).state)
  {
    if RejectApplication(s, actor, c, id).outcome == Done {
      RejectDoneKeepsGood(s, actor, c, id);
    }
  }
}
