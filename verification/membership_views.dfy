/** The views that change who belongs to a club and in which role:
    promote, demote and remove (clubs/views/club_views/club_member_views.py),
    transfer of ownership, and leave, create and delete club and the dashboard
    lists (clubs/views/home_views.py). */
module MembershipViews {
  import opened Base
  import opened Entities
  import opened Roles
  import opened ApplicationModel
  import opened Invariants
  import opened Fields

  /** `ChangeMemberPermissions.post` looks up the target user and then their
      membership of the route club; either miss ends the request. */
  predicate TargetFound(s: State, c: ClubId, target: UserId)
  {
    target in s.users && (target, c) in s.roles
  }

  /** The writes of a removal, shared by `DeleteMemberView` and
      `LeaveClubView`: the Accepted application is saved as Rejected and the
      membership row is deleted. */
  function Withdraw(s: State, u: UserId, c: ClubId, a: AppId): (t: State)
    requires a in AcceptedFor(s, u, c)
    ensures t.roles == s.roles - {(u, c)}
    ensures t.applications.Keys == s.applications.Keys
    ensures t.applications[a].status == Rejected
    ensures forall b | b in s.applications && b != a :: t.applications[b] == s.applications[b]
    ensures t == s.(roles := t.roles, applications := t.applications)
  {
    s.(roles := s.roles - {(u, c)},
       applications := s.applications[a := s.applications[a].(status := Rejected)])
  }

  /** Deleting one membership row lowers the club's member count by one. */
  lemma WithdrawLowersMemberCount(s: State, t: State, u: UserId, c: ClubId)
    requires (u, c) in s.roles
    requires t.roles == s.roles - {(u, c)}
    ensures MemberCount(t, c) == MemberCount(s, c) - 1
  {
    var before := set p | p in s.roles && p.1 == c;
    var after := set p | p in t.roles && p.1 == c;
    assert after == before - {(u, c)};
  }

  /** A removal turns the only application backing the membership Rejected,
      so memberships and Accepted applications still correspond. */
  lemma WithdrawKeepsAcceptance(s: State, u: UserId, c: ClubId, a: AppId)
    requires MembershipsMatchAcceptance(s)
    requires |AcceptedFor(s, u, c)| == 1 && a in AcceptedFor(s, u, c)
    ensures MembershipsMatchAcceptance(Withdraw(s, u, c, a))
  {
    var t := Withdraw(s, u, c, a);
    assert AcceptedFor(s, u, c) == {a} by {
      var x := Pick(AcceptedFor(s, u, c));
    }
    forall b | b in t.applications && t.applications[b].status == Accepted
      ensures (t.applications[b].user, t.applications[b].club) in t.roles
    {
      assert b != a && t.applications[b] == s.applications[b];
    }
    forall p | p in t.roles
      ensures HasAcceptedTo(t, p.0, p.1)
    {
      assert HasAcceptedTo(s, p.0, p.1);
      var b :| b in s.applications && s.applications[b].user == p.0
        && s.applications[b].club == p.1 && s.applications[b].status == Accepted;
      assert b != a;
      assert t.applications[b] == s.applications[b];
    }
  }

  /** Rejecting an application never opens a second one. */
  lemma WithdrawKeepsOneOpen(s: State, u: UserId, c: ClubId, a: AppId)
    requires AtMostOneOpenApplication(s)
    requires a in AcceptedFor(s, u, c)
    ensures AtMostOneOpenApplication(Withdraw(s, u, c, a))
  {
    var t := Withdraw(s, u, c, a);
    forall x, y | x in t.applications && y in t.applications
      && t.applications[x].Open() && t.applications[y].Open()
      && t.applications[x].user == t.applications[y].user
      && t.applications[x].club == t.applications[y].club
      ensures x == y
    {
      assert x != a && y != a;
      assert t.applications[x] == s.applications[x] && t.applications[y] == s.applications[y];
    }
  }

  /** A removal only deletes a membership and relabels an application, so keys,
      references, matches and unique columns stay as they were. */
  lemma WithdrawKeepsCounterAndReferences(s: State, u: UserId, c: ClubId, a: AppId)
    requires CounterAhead(s) && RowsReferToLiveRows(s)
    requires a in AcceptedFor(s, u, c)
    ensures CounterAhead(Withdraw(s, u, c, a)) && RowsReferToLiveRows(Withdraw(s, u, c, a))
  {
  }

  lemma WithdrawKeepsColumns(s: State, u: UserId, c: ClubId, a: AppId)
    requires NoSelfMatch(s) && UniqueColumns(s)
    requires a in AcceptedFor(s, u, c)
    ensures NoSelfMatch(Withdraw(s, u, c, a)) && UniqueColumns(Withdraw(s, u, c, a))
  {
  }

  /** Under the invariants a removal of a non-owner keeps the database good:
      the membership goes together with the only application that backed it. */
  lemma WithdrawKeepsGood(s: State, u: UserId, c: ClubId, a: AppId)
    requires Good(s)
    requires (u, c) in s.roles && s.roles[(u, c)] != Owner
    requires a in AcceptedFor(s, u, c)
    ensures Good(Withdraw(s, u, c, a))
  {
    var t := Withdraw(s, u, c, a);
    WithdrawKeepsCounterAndReferences(s, u, c, a);
    WithdrawKeepsColumns(s, u, c, a);
    assert OneOwnerPerClub(t) by {
      RemovingNonOwnerKeepsOwners(s, t, u, c);
      assert OneOwnerPerClub(s);
    }
    assert AtMostOneOpenApplication(t) by {
      WithdrawKeepsOneOpen(s, u, c, a);
    }
    assert MembershipsMatchAcceptance(t) by {
      MemberHasOneAcceptedApplication(s, u, c);
      WithdrawKeepsAcceptance(s, u, c, a);
    }
  }

  /** `PromoteMemberView`: an Officer or the Owner turns a plain Member into
      an Officer; any other target role is refused and nothing changes. */
  function Promote(s: State, actor: UserId, c: ClubId, target: UserId): (r: Response)
    ensures r.outcome == Done <==>
      Admit(s, actor, c, OfficerRequired) == None && target in s.users && IsMemberOf(s, target, c)
    ensures r.outcome == NotFound <==>
      Admit(s, actor, c, OfficerRequired) == None && !TargetFound(s, c, target)
    ensures r.outcome == Done ==> IsOfficerOf(r.state, target, c)
    ensures r.outcome == Done ==> r.state == s.(roles := r.state.roles)
    ensures r.outcome == Done ==> r.state.roles.Keys == s.roles.Keys
    ensures r.outcome == Done ==> forall p | p in s.roles && p != (target, c) :: r.state.roles[p] == s.roles[p]
    ensures r.outcome != Done ==> r.state == s
  {
    match Admit(s, actor, c, OfficerRequired)
    case Some(refusal) => Response(s, refusal)
    case None =>
      if !TargetFound(s, c, target) then Response(s, NotFound)
      else if IsMemberOf(s, target, c) then
        Response(s.(roles := s.roles[(target, c) := Officer]), Done)
      else Response(s, Refused)
  }

  /** `DemoteOfficerView`: only the Owner may act, and only an Officer becomes
      a Member. */
  function Demote(s: State, actor: UserId, c: ClubId, target: UserId): (r: Response)
    ensures r.outcome == Done <==>
      Admit(s, actor, c, OwnerRequired) == None && target in s.users && IsOfficerOf(s, target, c)
    ensures r.outcome == NotFound <==>
      Admit(s, actor, c, OwnerRequired) == None && !TargetFound(s, c, target)
    ensures r.outcome == Done ==> IsMemberOf(r.state, target, c)
    ensures r.outcome == Done ==> r.state == s.(roles := r.state.roles)
    ensures r.outcome == Done ==> r.state.roles.Keys == s.roles.Keys
    ensures r.outcome == Done ==> forall p | p in s.roles && p != (target, c) :: r.state.roles[p] == s.roles[p]
    ensures r.outcome != Done ==> r.state == s
  {
    match Admit(s, actor, c, OwnerRequired)
    case Some(refusal) => Response(s, refusal)
    case None =>
      if !TargetFound(s, c, target) then Response(s, NotFound)
      else if IsOfficerOf(s, target, c) then
        Response(s.(roles := s.roles[(target, c) := Member]), Done)
      else Response(s, Refused)
  }

  /** An owner targeting themselves with a demotion changes nothing. */
  lemma OwnerCannotDemoteThemselves(s: State, owner: UserId, c: ClubId)
    requires IsOwnerOf(s, owner, c)
    ensures Demote(s, owner, c, owner).state == s
    ensures Demote(s, owner, c, owner).outcome != Done
  {
  }

  /** The owner's demotion undoes a promotion. */
  lemma DemoteUndoesPromote(s: State, owner: UserId, c: ClubId, target: UserId)
    requires c in s.clubs && IsOwnerOf(s, owner, c)
    requires target in s.users && IsMemberOf(s, target, c)
    ensures Promote(s, owner, c, target).outcome == Done
    ensures Demote(Promote(s, owner, c, target).state, owner, c, target) == Response(s, Done)
  {
    var t := Promote(s, owner, c, target).state;
    assert owner != target;
    assert t.roles[(owner, c)] == Owner;
    assert t.roles[(target, c) := Member] == s.roles;
  }

  /** The owner's promotion undoes a demotion. */
  lemma PromoteUndoesDemote(s: State, owner: UserId, c: ClubId, target: UserId)
    requires c in s.clubs && IsOwnerOf(s, owner, c)
    requires target in s.users && IsOfficerOf(s, target, c)
    ensures Demote(s, owner, c, target).outcome == Done
    ensures Promote(Demote(s, owner, c, target).state, owner, c, target) == Response(s, Done)
  {
    var t := Demote(s, owner, c, target).state;
    assert owner != target;
    assert t.roles[(owner, c)] == Owner;
    assert t.roles[(target, c) := Officer] == s.roles;
  }

  /** Promotion and demotion never touch an Owner row, so every club keeps its
      owners, and a good database stays good. */
  lemma PromotePreservesGood(s: State, actor: UserId, c: ClubId, target: UserId)
    requires Good(s)
    ensures Good(Promote(s, actor, c, target).state)
    ensures forall d :: Owners(Promote(s, actor, c, target).state, d) == Owners(s, d)
  {
    if Promote(s, actor, c, target).outcome == Done {
      NonOwnerRoleChangeKeepsOwners(s, target, c, Officer);
      NonOwnerRoleChangeKeepsGood(s, target, c, Officer);
    }
  }

  lemma DemotePreservesGood(s: State, actor: UserId, c: ClubId, target: UserId)
    requires Good(s)
    ensures Good(Demote(s, actor, c, target).state)
    ensures forall d :: Owners(Demote(s, actor, c, target).state, d) == Owners(s, d)
  {
    if Demote(s, actor, c, target).outcome == Done {
      NonOwnerRoleChangeKeepsOwners(s, target, c, Member);
      NonOwnerRoleChangeKeepsGood(s, target, c, Member);
    }
  }

  /** `DeleteMemberView`: an Officer may remove only Members, the Owner may
      also remove Officers, and the Owner is never removed. The target's
      Accepted application is fetched with `get`, which raises unless exactly
      one exists. */
  function RemoveMember(s: State, actor: UserId, c: ClubId, target: UserId): (r: Response)
    ensures r.outcome == Done <==>
      && Admit(s, actor, c, OfficerRequired) == None && target in s.users
      && (IsMemberOf(s, target, c) || (IsOfficerOf(s, target, c) && IsOwnerOf(s, actor, c)))
      && |AcceptedFor(s, target, c)| == 1
    ensures r.outcome == NotFound <==>
      Admit(s, actor, c, OfficerRequired) == None && !TargetFound(s, c, target)
    ensures r.outcome == Done ==> r.state == Withdraw(s, target, c, Pick(AcceptedFor(s, target, c)))
    ensures r.outcome == Done ==> r.state.roles == s.roles - {(target, c)}
    ensures r.outcome == Done ==> MemberCount(r.state, c) == MemberCount(s, c) - 1
    ensures r.outcome == Done ==> r.state.applications.Keys == s.applications.Keys
    ensures r.outcome == Done ==> AcceptedFor(r.state, target, c) == {}
    ensures r.outcome == Done ==>
      forall a | a in AcceptedFor(s, target, c) :: r.state.applications[a].status == Rejected
    ensures r.outcome.ServerError? ==> |AcceptedFor(s, target, c)| != 1
    ensures IsOwnerOf(s, target, c) ==> r.state == s
    ensures r.outcome != Done ==> r.state == s
  {
    match Admit(s, actor, c, OfficerRequired)
    case Some(refusal) => Response(s, refusal)
    case None =>
      ExactRolesPartitionMembership(s, target, c);
      if !TargetFound(s, c, target) then Response(s, NotFound)
      else if IsOfficerOf(s, target, c) && !IsOwnerOf(s, actor, c) then Response(s, Refused)
      else if !IsOwnerOf(s, target, c) then
        match GetOne(AcceptedFor(s, target, c))
        case Err(e) => Response(s, ServerError(e))
        case Ok(a) =>
          var t := Withdraw(s, target, c, a);
          WithdrawLowersMemberCount(s, t, target, c);
          Response(t, Done)
      else Response(s, Refused)
  }

  lemma RemoveMemberDoneKeepsGood(s: State, actor: UserId, c: ClubId, target: UserId)
    requires Good(s)
    requires RemoveMember(s, actor, c, target).outcome == Done
    ensures Good(RemoveMember(s, actor, c, target).state)
  {
    ExactRolesPartitionMembership(s, target, c);
    WithdrawKeepsGood(s, target, c, Pick(AcceptedFor(s, target, c)));
  }

  /** When memberships and Accepted applications correspond, the `get` of the
      target's application finds exactly one row, so a removal never raises. */
  lemma RemoveMemberNeverRaises(s: State, actor: UserId, c: ClubId, target: UserId)
    requires AtMostOneOpenApplication(s) && MembershipsMatchAcceptance(s)
    ensures !RemoveMember(s, actor, c, target).outcome.ServerError?
  {
    if (target, c) in s.roles {
      MemberHasOneAcceptedApplication(s, target, c);
    }
  }

  /** A removal keeps a good database good. */
  lemma RemoveMemberPreservesGood(s: State, actor: UserId, c: ClubId, target: UserId)
    requires Good(s)
    ensures Good(RemoveMember(s, actor, c, target).state)
  {
    if RemoveMember(s, actor, c, target).outcome == Done {
      RemoveMemberDoneKeepsGood(s, actor, c, target);
    }
  }

  /** The writes of a transfer: the owner becomes an Officer and the heir the
      Owner. */
  function HandOver(s: State, owner: UserId, c: ClubId, heir: UserId): (t: State)
    requires (owner, c) in s.roles && (heir, c) in s.roles && owner != heir
    ensures t == s.(roles := t.roles) && t.roles.Keys == s.roles.Keys
    ensures IsOwnerOf(t, heir, c) && IsOfficerOf(t, owner, c)
    ensures forall p | p in s.roles && p != (heir, c) && p != (owner, c) :: t.roles[p] == s.roles[p]
  {
    s.(roles := s.roles[(owner, c) := Officer][(heir, c) := Owner])
  }

  /** `TransferOwnershipView.post`: the Owner hands the Owner role to another
      member of the club and becomes an Officer. */
  function TransferOwnership(s: State, actor: UserId, c: ClubId, target: UserId): (r: Response)
    ensures r.outcome == Done <==>
      Admit(s, actor, c, OwnerRequired) == None && (target, c) in s.roles && target != actor
    ensures r.outcome == Done ==> r.state == HandOver(s, actor, c, target)
    ensures r.outcome != Done ==> r.state == s
  {
    match Admit(s, actor, c, OwnerRequired)
    case Some(refusal) => Response(s, refusal)
    case None =>
      if (target, c) !in s.roles then Response(s, NotFound)
      else if target == actor then Response(s, Refused)
      else Response(HandOver(s, actor, c, target), Done)
  }

  /** After a hand-over from the only owner the heir is the club's only owner,
      and every other club keeps its owners. */
  lemma HandOverLeavesOneOwner(s: State, owner: UserId, c: ClubId, heir: UserId)
    requires OneOwnerPerClub(s) && c in s.clubs
    requires IsOwnerOf(s, owner, c) && (heir, c) in s.roles && heir != owner
    ensures Owners(HandOver(s, owner, c, heir), c) == {heir}
    ensures forall d | d != c :: Owners(HandOver(s, owner, c, heir), d) == Owners(s, d)
    ensures OneOwnerPerClub(HandOver(s, owner, c, heir))
  {
    var t := HandOver(s, owner, c, heir);
    assert owner in Owners(s, c);
    SingletonIsUnique(Owners(s, c));
    forall u: UserId | u != heir
      ensures IsOwnerOf(t, u, c) <==> IsOwnerOf(s, u, c) && u != owner
    {
    }
    assert Owners(t, c) == {heir};
    forall d: ClubId | d != c
      ensures Owners(t, d) == Owners(s, d)
    {
      OwnersFollowOwnerRows(s, t, d);
    }
  }

  lemma HandOverKeepsGood(s: State, owner: UserId, c: ClubId, heir: UserId)
    requires Good(s) && c in s.clubs
    requires IsOwnerOf(s, owner, c) && (heir, c) in s.roles && heir != owner
    ensures Good(HandOver(s, owner, c, heir))
  {
    var t := HandOver(s, owner, c, heir);
    RoleChangeKeepsRest(s, t);
    RoleChangeKeepsAcceptance(s, t);
    HandOverLeavesOneOwner(s, owner, c, heir);
  }

  lemma TransferDoneKeepsGood(s: State, actor: UserId, c: ClubId, target: UserId)
    requires Good(s)
    requires TransferOwnership(s, actor, c, target).outcome == Done
    ensures Good(TransferOwnership(s, actor, c, target).state)
  {
    GatesAreNested(s, actor, c);
    HandOverKeepsGood(s, actor, c, target);
  }

  /** A transfer keeps a good database good, one owner per club included. */
  lemma TransferPreservesGood(s: State, actor: UserId, c: ClubId, target: UserId)
    requires Good(s)
    ensures Good(TransferOwnership(s, actor, c, target).state)
  {
    if TransferOwnership(s, actor, c, target).outcome == Done {
      TransferDoneKeepsGood(s, actor, c, target);
    }
  }

  /** Handing ownership back to a former Officer restores the roles. */
  lemma TransferBackRestores(s: State, owner: UserId, c: ClubId, officer: UserId)
    requires c in s.clubs && IsOwnerOf(s, owner, c) && IsOfficerOf(s, officer, c)
    ensures TransferOwnership(s, owner, c, officer).outcome == Done
    ensures TransferOwnership(TransferOwnership(s, owner, c, officer).state, officer, c, owner) == Response(s, Done)
  {
    var t := TransferOwnership(s, owner, c, officer).state;
    assert t.roles[(officer, c) := Officer][(owner, c) := Owner] == s.roles;
  }

  /** `LeaveClubView.post`: a Member or Officer leaves, withdrawing their
      Accepted application; the Owner may not leave. */
  function LeaveClub(s: State, actor: UserId, c: ClubId): (r: Response)
    ensures r.outcome == Done <==>
      && Admit(s, actor, c, MembershipRequired) == None && !IsOwnerOf(s, actor, c)
      && |AcceptedFor(s, actor, c)| == 1
    ensures r.outcome == Done ==> r.state == Withdraw(s, actor, c, Pick(AcceptedFor(s, actor, c)))
    ensures r.outcome == Done ==> r.state.roles == s.roles - {(actor, c)}
    ensures r.outcome == Done ==> MemberCount(r.state, c) == MemberCount(s, c) - 1
    ensures r.outcome == Done ==> r.state.applications.Keys == s.applications.Keys
    ensures r.outcome == Done ==> AcceptedFor(r.state, actor, c) == {}
    ensures r.outcome == Done ==>
      forall a | a in AcceptedFor(s, actor, c) :: r.state.applications[a].status == Rejected
    ensures IsOwnerOf(s, actor, c) ==> r.state == s
    ensures r.outcome != Done ==> r.state == s
  {
    match Admit(s, actor, c, MembershipRequired)
    case Some(refusal) => Response(s, refusal)
    case None =>
      if IsOwnerOf(s, actor, c) then Response(s, Refused)
      else
        match GetOne(AcceptedFor(s, actor, c))
        case Err(e) => Response(s, ServerError(e))
        case Ok(a) =>
          var t := Withdraw(s, actor, c, a);
          WithdrawLowersMemberCount(s, t, actor, c);
          Response(t, Done)
  }

  lemma LeaveClubDoneKeepsGood(s: State, actor: UserId, c: ClubId)
    requires Good(s)
    requires LeaveClub(s, actor, c).outcome == Done
    ensures Good(LeaveClub(s, actor, c).state)
  {
    GatesAreNested(s, actor, c);
    WithdrawKeepsGood(s, actor, c, Pick(AcceptedFor(s, actor, c)));
  }

  /** Leaving a club never raises: in a database where every membership is
      backed by one Accepted application, the `get` finds exactly one row. */
  lemma LeaveClubNeverRaises(s: State, actor: UserId, c: ClubId)
    requires AtMostOneOpenApplication(s) && MembershipsMatchAcceptance(s)
    ensures !LeaveClub(s, actor, c).outcome.ServerError?
  {
    if (actor, c) in s.roles {
      MemberHasOneAcceptedApplication(s, actor, c);
    }
  }

  /** Leaving a club keeps a good database good. */
  lemma LeaveClubPreservesGood(s: State, actor: UserId, c: ClubId)
    requires Good(s)
    ensures Good(LeaveClub(s, actor, c).state)
  {
    if LeaveClub(s, actor, c).outcome == Done {
      LeaveClubDoneKeepsGood(s, actor, c);
    }
  }

  /** A club of that name already exists (the unique check of `CreateClubForm`). */
  predicate NameTaken(s: State, name: string)
  {
    exists d | d in s.clubs :: s.clubs[d].name == name
  }

  /** The writes of a club creation: the club row at the next id, the
      founder's Accepted "Club owner" application at the id after it and their
      Owner membership. */
  function Found(s: State, founder: UserId, club: Club): (t: State)
    ensures t.nextId == s.nextId + 2
    ensures t.clubs == s.clubs[s.nextId := club]
    ensures t.roles == s.roles[(founder, s.nextId) := Owner]
    ensures t.applications == s.applications[s.nextId + 1 := Application(founder, s.nextId, "Club owner", Accepted)]
    ensures t.users == s.users && t.matches == s.matches
  {
    s.(clubs := s.clubs[s.nextId := club],
       roles := s.roles[(founder, s.nextId) := Owner],
       applications := s.applications[s.nextId + 1 := Application(founder, s.nextId, "Club owner", Accepted)],
       nextId := s.nextId + 2)
  }

  /** `CreateClubView.post`: a valid form with a free name creates the club,
      then an Accepted "Club owner" application and an Owner membership for the
      creator. An invalid form writes nothing. The membership insert raises when
      the creator already holds a membership of the new id, which a database
      with its counter ahead of every key rules out. */
  function CreateClub(s: State, actor: UserId, club: Club): (r: Response)
    ensures !ClubFieldsValid(club) || NameTaken(s, club.name) <==> r == Response(s, Invalid(BadFields))
    ensures ClubFieldsValid(club) && !NameTaken(s, club.name) && (actor, s.nextId) !in s.roles ==>
      r.outcome == Done
    ensures r.outcome == Done ==> r.state == Found(s, actor, club)
    ensures r.outcome == Done ==> IsOwnerOf(r.state, actor, s.nextId) && HasAcceptedTo(r.state, actor, s.nextId)
    ensures r.outcome.ServerError? <==>
      ClubFieldsValid(club) && !NameTaken(s, club.name) && (actor, s.nextId) in s.roles
    ensures r.outcome.ServerError? ==> r.outcome.error == IntegrityError
  {
    if !ClubFieldsValid(club) || NameTaken(s, club.name) then Response(s, Invalid(BadFields))
    else
      var cid := s.nextId;
      var s1 := s.(clubs := s.clubs[cid := club], nextId := cid + 1);
      var app := Application(actor, cid, "Club owner", Accepted);
      var (s2, aid) := InsertApplication(s1, app).value;
      match CreateMembership(s2, actor, cid, Owner)
      case Err(e) => Response(s2, ServerError(e))
      case Ok(s3) =>
        assert s3.applications[aid] == app;
        Response(s3, Done)
  }

  /** A fresh id is in no table and no row refers to it. */
  ghost predicate Fresh(s: State)
  {
    && (forall p | p in s.roles :: p.1 != s.nextId)
    && (forall a | a in s.applications :: a != s.nextId + 1 && s.applications[a].club != s.nextId)
    && s.nextId !in s.clubs
  }

  lemma CounterAheadMeansFresh(s: State)
    requires CounterAhead(s) && RowsReferToLiveRows(s)
    ensures Fresh(s)
  {
  }

  lemma FoundingKeepsCounterAndReferences(s: State, actor: UserId, club: Club)
    requires CounterAhead(s) && RowsReferToLiveRows(s) && actor in s.users
    ensures CounterAhead(Found(s, actor, club)) && RowsReferToLiveRows(Found(s, actor, club))
  {
  }

  lemma FoundingKeepsUniqueColumns(s: State, actor: UserId, club: Club)
    requires UniqueColumns(s) && !NameTaken(s, club.name) && s.nextId !in s.clubs
    ensures UniqueColumns(Found(s, actor, club)) && NoSelfMatch(s) == NoSelfMatch(Found(s, actor, club))
  {
  }

  /** The founder is the new club's only owner; other clubs keep theirs. */
  lemma FoundingOwners(s: State, actor: UserId, club: Club)
    requires OneOwnerPerClub(s) && Fresh(s)
    ensures Owners(Found(s, actor, club), s.nextId) == {actor}
    ensures forall d | d != s.nextId :: Owners(Found(s, actor, club), d) == Owners(s, d)
    ensures OneOwnerPerClub(Found(s, actor, club))
  {
    var t := Found(s, actor, club);
    var cid := s.nextId;
    forall u: UserId
      ensures IsOwnerOf(t, u, cid) <==> u == actor
    {
      if u != actor {
        assert (u, cid) !in s.roles;
      }
    }
    forall d: ClubId | d != cid
      ensures Owners(t, d) == Owners(s, d)
    {
      OwnersFollowOwnerRows(s, t, d);
    }
  }

  lemma FoundingKeepsOneOpen(s: State, actor: UserId, club: Club)
    requires AtMostOneOpenApplication(s) && Fresh(s)
    ensures AtMostOneOpenApplication(Found(s, actor, club))
  {
    var t := Found(s, actor, club);
    var aid := s.nextId + 1;
    forall x, y | x in t.applications && y in t.applications
      && t.applications[x].Open() && t.applications[y].Open()
      && t.applications[x].user == t.applications[y].user
      && t.applications[x].club == t.applications[y].club
      ensures x == y
    {
      if x != aid && y != aid {
        assert t.applications[x] == s.applications[x] && t.applications[y] == s.applications[y];
      } else {
        assert t.applications[x].club == s.nextId && t.applications[y].club == s.nextId;
      }
    }
  }

  lemma FoundingKeepsAcceptance(s: State, actor: UserId, club: Club)
    requires MembershipsMatchAcceptance(s) && Fresh(s)
    ensures MembershipsMatchAcceptance(Found(s, actor, club))
  {
    var t := Found(s, actor, club);
    var aid := s.nextId + 1;
    forall p | p in t.roles
      ensures HasAcceptedTo(t, p.0, p.1)
    {
      if p == (actor, s.nextId) {
        assert t.applications[aid].status == Accepted;
      } else {
        assert HasAcceptedTo(s, p.0, p.1);
        var b :| b in s.applications && s.applications[b].user == p.0
          && s.applications[b].club == p.1 && s.applications[b].status == Accepted;
        assert t.applications[b] == s.applications[b];
      }
    }
  }

  lemma FoundingKeepsGood(s: State, actor: UserId, club: Club)
    requires Good(s) && actor in s.users && !NameTaken(s, club.name)
    ensures Good(Found(s, actor, club))
  {
    CounterAheadMeansFresh(s);
    FoundingKeepsCounterAndReferences(s, actor, club);
    FoundingKeepsUniqueColumns(s, actor, club);
    FoundingOwners(s, actor, club);
    FoundingKeepsOneOpen(s, actor, club);
    FoundingKeepsAcceptance(s, actor, club);
  }

  lemma CreateClubDoneKeepsGood(s: State, actor: UserId, club: Club)
    requires Good(s) && actor in s.users
    requires CreateClub(s, actor, club).outcome == Done
    ensures Good(CreateClub(s, actor, club).state)
  {
    FoundingKeepsGood(s, actor, club);
  }

  /** In a good database a logged-in user's valid form always creates the club,
      and the database stays good. */
  lemma CreateClubPreservesGood(s: State, actor: UserId, club: Club)
    requires Good(s) && actor in s.users
    ensures CreateClub(s, actor, club).outcome == Done <==> ClubFieldsValid(club) && !NameTaken(s, club.name)
    ensures Good(CreateClub(s, actor, club).state)
  {
    assert (actor, s.nextId) !in s.roles by {
      CounterAheadMeansFresh(s);
    }
    if CreateClub(s, actor, club).outcome == Done {
      CreateClubDoneKeepsGood(s, actor, club);
    }
  }

  /** `DeleteClubView.post`: only the Owner deletes the club; memberships,
      applications and matches of the club go with it. */
  function DeleteClub(s: State, actor: UserId, c: ClubId): (r: Response)
    ensures r.outcome == Done <==> c in s.clubs && IsOwnerOf(s, actor, c)
    ensures r.outcome == Done ==>
      && r.state.clubs.Keys == s.clubs.Keys - {c}
      && (forall p | p in r.state.roles :: p.1 != c)
      && (forall a | a in r.state.applications :: r.state.applications[a].club != c)
      && (forall m | m in r.state.matches :: r.state.matches[m].club != c)
    ensures r.outcome == Done ==>
      && (forall p | p in s.roles && p.1 != c :: p in r.state.roles)
      && (forall a | a in s.applications && s.applications[a].club != c :: a in r.state.applications)
      && (forall m | m in s.matches && s.matches[m].club != c :: m in r.state.matches)
    ensures r.outcome == Done ==> r.state == DeleteClubRows(s, c)
    ensures r.outcome != Done ==> r.state == s
  {
    match Admit(s, actor, c, OwnerRequired)
    case Some(refusal) => Response(s, refusal)
    case None => Response(DeleteClubRows(s, c), Done)
  }

  lemma DeleteClubPreservesGood(s: State, actor: UserId, c: ClubId)
    requires Good(s)
    ensures Good(DeleteClub(s, actor, c).state)
  {
    if DeleteClub(s, actor, c).outcome == Done {
      DeleteClubRowsKeepsGood(s, c);
    }
  }

  /** The three club lists of `ClubListView`. */
  datatype Dashboard = Dashboard(mine: set<ClubId>, others: set<ClubId>, owned: set<ClubId>)

  /** `ClubListView.get_context_data`: the clubs the user has a membership
      in, the other clubs, and the clubs the user owns. The first two split
      all clubs, and every owned club is one of the user's clubs. */
  function ClubList(s: State, actor: UserId): (d: Dashboard)
    ensures d.mine + d.others == s.clubs.Keys && d.mine * d.others == {}
    ensures forall c :: c in d.mine <==> c in s.clubs && c in ClubsOf(s, actor)
    ensures d.owned <= d.mine && forall c :: c in d.owned <==> c in d.mine && RoleOf(s, actor, c) == Some(Owner)
  {
    Dashboard(
      set c | c in s.clubs && (actor, c) in s.roles,
      set c | c in s.clubs && (actor, c) !in s.roles,
      set c | c in s.clubs && IsOwnerOf(s, actor, c))
  }

}
