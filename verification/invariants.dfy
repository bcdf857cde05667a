/** The properties every database reached through the views keeps, and the
    facts about lookups they make safe. The model-level saves alone do not keep
    them (see `ApplicationModel.AcceptedDuplicatesCoexist`): the views do. */
module Invariants {
  import opened Base
  import opened Entities
  import opened Roles
  import opened ApplicationModel

  /** Every foreign key points at a live row; the cascades keep it so. */
  ghost predicate RowsReferToLiveRows(s: State)
  {
    && (forall p | p in s.roles :: p.0 in s.users && p.1 in s.clubs)
    && (forall a | a in s.applications ::
          s.applications[a].user in s.users && s.applications[a].club in s.clubs)
    && (forall m | m in s.matches ::
          s.matches[m].player1 in s.users && s.matches[m].player2 in s.users && s.matches[m].club in s.clubs)
  }

  /** Every club has exactly one Owner, what `Club.get_owner` relies on. */
  ghost predicate OneOwnerPerClub(s: State)
  {
    forall c | c in s.clubs :: |Owners(s, c)| == 1
  }

  /** A user has at most one open (Pending or Accepted) application per club. */
  ghost predicate AtMostOneOpenApplication(s: State)
  {
    forall a, b | a in s.applications && b in s.applications
      && s.applications[a].Open() && s.applications[b].Open()
      && s.applications[a].user == s.applications[b].user
      && s.applications[a].club == s.applications[b].club :: a == b
  }

  /** A membership exists exactly when an Accepted application backs it. */
  ghost predicate MembershipsMatchAcceptance(s: State)
  {
    && (forall a | a in s.applications && s.applications[a].status == Accepted ::
          (s.applications[a].user, s.applications[a].club) in s.roles)
    && (forall p | p in s.roles :: HasAcceptedTo(s, p.0, p.1))
  }

  /** No match pits a user against themselves. */
  ghost predicate NoSelfMatch(s: State)
  {
    forall m | m in s.matches :: s.matches[m].player1 != s.matches[m].player2
  }

  /** The unique columns: club names, usernames and emails. */
  ghost predicate UniqueColumns(s: State)
  {
    && (forall c, d | c in s.clubs && d in s.clubs && s.clubs[c].name == s.clubs[d].name :: c == d)
    && (forall u, v | u in s.users && v in s.users && s.users[u].username == s.users[v].username :: u == v)
    && (forall u, v | u in s.users && v in s.users && s.users[u].email == s.users[v].email :: u == v)
  }

  ghost predicate Good(s: State)
  {
    && CounterAhead(s)
    && RowsReferToLiveRows(s)
    && OneOwnerPerClub(s)
    && AtMostOneOpenApplication(s)
    && MembershipsMatchAcceptance(s)
    && NoSelfMatch(s)
    && UniqueColumns(s)
  }

  /** The empty database is good. */
  lemma EmptyIsGood()
    ensures Good(State(map[], map[], map[], map[], map[], 0))
  {
  }

  /** In a good database every member has exactly one Accepted application to
      the club, so `Application.objects.get(status=ACCEPTED, ...)` succeeds. */
  lemma MemberHasOneAcceptedApplication(s: State, u: UserId, c: ClubId)
    requires AtMostOneOpenApplication(s) && MembershipsMatchAcceptance(s)
    requires (u, c) in s.roles
    ensures |AcceptedFor(s, u, c)| == 1
  {
    assert HasAcceptedTo(s, u, c);
    var a :| a in s.applications && s.applications[a].user == u && s.applications[a].club == c
      && s.applications[a].status == Accepted;
    var ids := AcceptedFor(s, u, c);
    forall b | b in ids
      ensures b == a
    {
      assert s.applications[b].Open() && s.applications[a].Open();
    }
    assert ids == {a};
  }

  /** In a good database a Pending application belongs to a non-member. */
  lemma PendingApplicantIsNoMember(s: State, a: AppId)
    requires AtMostOneOpenApplication(s) && MembershipsMatchAcceptance(s)
    requires a in s.applications && s.applications[a].status == AppStatus.Pending
    ensures (s.applications[a].user, s.applications[a].club) !in s.roles
  {
  }

  /** In a good database `Club.get_owner` never raises for a live club. */
  lemma GetOwnerSucceeds(s: State, c: ClubId)
    requires Good(s)
    requires c in s.clubs
    ensures GetOwner(s, c).Ok?
  {
  }

  /** The owners of a club depend only on the club's Owner rows. */
  lemma OwnersFollowOwnerRows(s: State, t: State, c: ClubId)
    requires forall u :: IsOwnerOf(s, u, c) <==> IsOwnerOf(t, u, c)
    ensures Owners(s, c) == Owners(t, c)
  {
  }

  /** Changing roles without adding or removing a membership keeps every
      invariant but the one about owners. */
  lemma RoleChangeKeepsRest(s: State, t: State)
    requires CounterAhead(s) && RowsReferToLiveRows(s) && AtMostOneOpenApplication(s)
    requires NoSelfMatch(s) && UniqueColumns(s)
    requires t == s.(roles := t.roles) && t.roles.Keys == s.roles.Keys
    ensures CounterAhead(t) && RowsReferToLiveRows(t) && AtMostOneOpenApplication(t)
    ensures NoSelfMatch(t) && UniqueColumns(t)
  {
  }

  lemma RoleChangeKeepsAcceptance(s: State, t: State)
    requires MembershipsMatchAcceptance(s)
    requires t.applications == s.applications && t.roles.Keys == s.roles.Keys
    ensures MembershipsMatchAcceptance(t)
  {
    forall p | p in t.roles
      ensures HasAcceptedTo(t, p.0, p.1)
    {
      assert HasAcceptedTo(s, p.0, p.1);
    }
  }

  /** ... so it keeps a good database good as long as every club still has
      exactly one owner. */
  lemma RoleChangeKeepsGood(s: State, t: State)
    requires Good(s)
    requires t == s.(roles := t.roles)
    requires t.roles.Keys == s.roles.Keys
    requires OneOwnerPerClub(t)
    ensures Good(t)
  {
    RoleChangeKeepsRest(s, t);
    RoleChangeKeepsAcceptance(s, t);
  }

  /** A change that leaves clubs and memberships alone keeps one owner per club. */
  lemma SameRolesSameOwners(s: State, t: State)
    requires OneOwnerPerClub(s)
    requires t.roles == s.roles && t.clubs == s.clubs
    ensures OneOwnerPerClub(t)
  {
    forall d: ClubId
      ensures Owners(t, d) == Owners(s, d)
    {
      OwnersFollowOwnerRows(s, t, d);
    }
  }

  /** Giving a non-owner another non-owner role leaves every club's owners as
      they were. */
  lemma NonOwnerRoleChangeKeepsOwners(s: State, u: UserId, c: ClubId, role: Role)
    requires (u, c) in s.roles && s.roles[(u, c)] != Owner && role != Owner
    ensures forall d :: Owners(s.(roles := s.roles[(u, c) := role]), d) == Owners(s, d)
  {
    var t := s.(roles := s.roles[(u, c) := role]);
    forall d: ClubId
      ensures Owners(t, d) == Owners(s, d)
    {
      OwnersFollowOwnerRows(s, t, d);
    }
  }

  /** ... and so keeps a good database good. */
  lemma NonOwnerRoleChangeKeepsGood(s: State, u: UserId, c: ClubId, role: Role)
    requires Good(s)
    requires (u, c) in s.roles && s.roles[(u, c)] != Owner && role != Owner
    ensures Good(s.(roles := s.roles[(u, c) := role]))
  {
    var t := s.(roles := s.roles[(u, c) := role]);
    assert t.roles.Keys == s.roles.Keys;
    assert OneOwnerPerClub(t) by {
      NonOwnerRoleChangeKeepsOwners(s, u, c, role);
      assert OneOwnerPerClub(s);
    }
    RoleChangeKeepsGood(s, t);
  }

  /** Deleting a non-owner's membership leaves every club's owners as they were. */
  lemma RemovingNonOwnerKeepsOwners(s: State, t: State, u: UserId, c: ClubId)
    requires (u, c) in s.roles && s.roles[(u, c)] != Owner
    requires t.roles == s.roles - {(u, c)}
    ensures forall d :: Owners(t, d) == Owners(s, d)
  {
    forall d: ClubId
      ensures Owners(t, d) == Owners(s, d)
    {
      OwnersFollowOwnerRows(s, t, d);
    }
  }

  /** Adding a membership with a role other than Owner leaves every club's
      owners as they were. */
  lemma AddingNonOwnerKeepsOwners(s: State, t: State, u: UserId, c: ClubId)
    requires (u, c) !in s.roles && t.roles == s.roles[(u, c) := Member]
    ensures forall d :: Owners(t, d) == Owners(s, d)
  {
    forall d: ClubId
      ensures Owners(t, d) == Owners(s, d)
    {
      OwnersFollowOwnerRows(s, t, d);
    }
  }

  /** `t` keeps a subset of the rows of `s`, unchanged, and the same counter. */
  ghost predicate Shrinks(s: State, t: State)
  {
    && t.nextId == s.nextId
    && (forall u | u in t.users :: u in s.users && t.users[u] == s.users[u])
    && (forall c | c in t.clubs :: c in s.clubs && t.clubs[c] == s.clubs[c])
    && (forall p | p in t.roles :: p in s.roles && t.roles[p] == s.roles[p])
    && (forall a | a in t.applications :: a in s.applications && t.applications[a] == s.applications[a])
    && (forall m | m in t.matches :: m in s.matches && t.matches[m] == s.matches[m])
  }

  /** Deleting rows keeps every invariant that only forbids rows. */
  lemma ShrinkingKeepsCounter(s: State, t: State)
    requires Shrinks(s, t) && CounterAhead(s)
    ensures CounterAhead(t)
  {
  }

  lemma ShrinkingKeepsOneOpen(s: State, t: State)
    requires Shrinks(s, t) && AtMostOneOpenApplication(s)
    ensures AtMostOneOpenApplication(t)
  {
  }

  lemma ShrinkingKeepsNoSelfMatch(s: State, t: State)
    requires Shrinks(s, t) && NoSelfMatch(s)
    ensures NoSelfMatch(t)
  {
  }

  lemma ShrinkingKeepsUniqueColumns(s: State, t: State)
    requires Shrinks(s, t) && UniqueColumns(s)
    ensures UniqueColumns(t)
  {
  }

  lemma DeleteClubRowsKeepsReferences(s: State, c: ClubId)
    requires RowsReferToLiveRows(s)
    ensures Shrinks(s, DeleteClubRows(s, c))
    ensures RowsReferToLiveRows(DeleteClubRows(s, c))
  {
  }

  lemma DeleteClubRowsKeepsOwners(s: State, c: ClubId)
    ensures forall d | d != c :: Owners(DeleteClubRows(s, c), d) == Owners(s, d)
  {
    var t := DeleteClubRows(s, c);
    forall d: ClubId | d != c
      ensures Owners(t, d) == Owners(s, d)
    {
      OwnersFollowOwnerRows(s, t, d);
    }
  }

  lemma DeleteClubRowsKeepsAcceptance(s: State, c: ClubId)
    requires MembershipsMatchAcceptance(s)
    ensures MembershipsMatchAcceptance(DeleteClubRows(s, c))
  {
    var t := DeleteClubRows(s, c);
    forall p | p in t.roles
      ensures HasAcceptedTo(t, p.0, p.1)
    {
      assert HasAcceptedTo(s, p.0, p.1);
      var b :| b in s.applications && s.applications[b].user == p.0
        && s.applications[b].club == p.1 && s.applications[b].status == Accepted;
      assert b in t.applications;
    }
  }

  /** Deleting a club keeps a good database good. */
  lemma DeleteClubRowsKeepsGood(s: State, c: ClubId)
    requires Good(s)
    ensures Good(DeleteClubRows(s, c))
  {
    var t := DeleteClubRows(s, c);
    DeleteClubRowsKeepsReferences(s, c);
    ShrinkingKeepsCounter(s, t);
    ShrinkingKeepsOneOpen(s, t);
    ShrinkingKeepsNoSelfMatch(s, t);
    ShrinkingKeepsUniqueColumns(s, t);
    DeleteClubRowsKeepsAcceptance(s, c);
    assert OneOwnerPerClub(t) by {
      DeleteClubRowsKeepsOwners(s, c);
      assert OneOwnerPerClub(s);
    }
  }

  /** The user holds no Owner membership anywhere. */
  ghost predicate OwnsNothing(s: State, u: UserId)
  {
    forall p | p in s.roles && p.0 == u :: s.roles[p] != Owner
  }

  lemma DeleteUserRowsKeepsReferences(s: State, u: UserId)
    requires RowsReferToLiveRows(s)
    ensures Shrinks(s, DeleteUserRows(s, u))
    ensures RowsReferToLiveRows(DeleteUserRows(s, u))
  {
  }

  /** Deleting a user who owns nothing leaves every club's owners as they were. */
  lemma DeleteUserRowsKeepsOwners(s: State, u: UserId)
    requires OwnsNothing(s, u)
    ensures forall d :: Owners(DeleteUserRows(s, u), d) == Owners(s, d)
  {
    var t := DeleteUserRows(s, u);
    forall d: ClubId
      ensures Owners(t, d) == Owners(s, d)
    {
      forall v: UserId
        ensures IsOwnerOf(s, v, d) <==> IsOwnerOf(t, v, d)
      {
        if v == u && (v, d) in s.roles {
          assert s.roles[(v, d)] != Owner;
        }
      }
      OwnersFollowOwnerRows(s, t, d);
    }
  }

  lemma DeleteUserRowsKeepsAcceptance(s: State, u: UserId)
    requires MembershipsMatchAcceptance(s)
    ensures MembershipsMatchAcceptance(DeleteUserRows(s, u))
  {
    var t := DeleteUserRows(s, u);
    forall p | p in t.roles
      ensures HasAcceptedTo(t, p.0, p.1)
    {
      assert HasAcceptedTo(s, p.0, p.1);
      var b :| b in s.applications && s.applications[b].user == p.0
        && s.applications[b].club == p.1 && s.applications[b].status == Accepted;
      assert b in t.applications;
    }
  }

  /** Deleting a user who owns no club keeps a good database good. */
  lemma DeleteUserRowsKeepsGood(s: State, u: UserId)
    requires Good(s) && OwnsNothing(s, u)
    ensures Good(DeleteUserRows(s, u))
  {
    var t := DeleteUserRows(s, u);
    DeleteUserRowsKeepsReferences(s, u);
    ShrinkingKeepsCounter(s, t);
    ShrinkingKeepsOneOpen(s, t);
    ShrinkingKeepsNoSelfMatch(s, t);
    ShrinkingKeepsUniqueColumns(s, t);
    DeleteUserRowsKeepsAcceptance(s, u);
    assert OneOwnerPerClub(t) by {
      DeleteUserRowsKeepsOwners(s, u);
      assert OneOwnerPerClub(s);
    }
  }
}
