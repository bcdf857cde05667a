/** The role predicates of `User` and `Club` (clubs/models/user_membership_models.py)
    and the rank checks and access mixins built on them (clubs/views/helpers.py). */
module Roles {
  import opened Base
  import opened Entities

  function RoleOf(s: State, u: UserId, c: ClubId): Option<Role>
  {
    if (u, c) in s.roles then Some(s.roles[(u, c)]) else None
  }

  /** `User.is_member_of`, `is_officer_of`, `is_owner_of`: an exact role in one club. */
  predicate IsMemberOf(s: State, u: UserId, c: ClubId)
  {
    RoleOf(s, u, c) == Some(Member)
  }

  predicate IsOfficerOf(s: State, u: UserId, c: ClubId)
  {
    RoleOf(s, u, c) == Some(Officer)
  }

  predicate IsOwnerOf(s: State, u: UserId, c: ClubId)
  {
    RoleOf(s, u, c) == Some(Owner)
  }

  /** `User.is_member`, `is_officer`, `is_owner`: that exact role in at least one club. */
  predicate HasRoleSomewhere(s: State, u: UserId, role: Role)
  {
    exists p | p in s.roles :: p.0 == u && s.roles[p] == role
  }

  predicate IsMember(s: State, u: UserId) { HasRoleSomewhere(s, u, Member) }
  predicate IsOfficer(s: State, u: UserId) { HasRoleSomewhere(s, u, Officer) }
  predicate IsOwner(s: State, u: UserId) { HasRoleSomewhere(s, u, Owner) }

  /** The exact-role queries partition the pairs that have a membership, and
      they are about one club only. */
  lemma ExactRolesPartitionMembership(s: State, u: UserId, c: ClubId)
    ensures !(IsMemberOf(s, u, c) && IsOfficerOf(s, u, c))
    ensures !(IsMemberOf(s, u, c) && IsOwnerOf(s, u, c))
    ensures !(IsOfficerOf(s, u, c) && IsOwnerOf(s, u, c))
    ensures IsMemberOf(s, u, c) || IsOfficerOf(s, u, c) || IsOwnerOf(s, u, c) <==> (u, c) in s.roles
  {
    if (u, c) in s.roles {
      match s.roles[(u, c)]
      case Member =>
      case Officer =>
      case Owner =>
    }
  }

  /** A user holds a role "somewhere" exactly when some club gives them that role. */
  lemma SomewhereMeansSomeClub(s: State, u: UserId, role: Role)
    ensures HasRoleSomewhere(s, u, role) <==> exists c :: RoleOf(s, u, c) == Some(role)
  {
    if HasRoleSomewhere(s, u, role) {
      var p :| p in s.roles && p.0 == u && s.roles[p] == role;
      assert RoleOf(s, u, p.1) == Some(role);
    }
  }

  /** `_is_owner`, `_is_officer`, `_is_member`: each level also admits every
      higher role. */
  predicate RankOwner(s: State, u: UserId, c: ClubId)
  {
    IsOwnerOf(s, u, c)
  }

  predicate RankOfficer(s: State, u: UserId, c: ClubId)
  {
    IsOfficerOf(s, u, c) || RankOwner(s, u, c)
  }

  predicate RankMember(s: State, u: UserId, c: ClubId)
  {
    IsMemberOf(s, u, c) || RankOfficer(s, u, c)
  }

  /** The rank helpers are thresholds on the role order. */
  lemma RanksAreThresholds(s: State, u: UserId, c: ClubId)
    ensures RankMember(s, u, c) <==> (u, c) in s.roles
    ensures RankOfficer(s, u, c) <==> (u, c) in s.roles && s.roles[(u, c)].Rank() >= 2
    ensures RankOwner(s, u, c) <==> (u, c) in s.roles && s.roles[(u, c)].Rank() >= 3
    ensures RankOwner(s, u, c) ==> RankOfficer(s, u, c)
    ensures RankOfficer(s, u, c) ==> RankMember(s, u, c)
  {
    ExactRolesPartitionMembership(s, u, c);
  }

  /** Which of the three access mixins guards a view. */
  datatype Gate = MembershipRequired | OfficerRequired | OwnerRequired {
    function MinRank(): nat
    {
      match this
      case MembershipRequired => 1
      case OfficerRequired => 2
      case OwnerRequired => 3
    }
  }

  /** The `dispatch` of a RequiredMixin: a missing club redirects first, then a
      rank below the gate redirects; `None` means the view's handler runs. */
  function Admit(s: State, actor: UserId, c: ClubId, gate: Gate): (refusal: Option<Outcome>)
    ensures refusal == None <==>
      c in s.clubs && (actor, c) in s.roles && s.roles[(actor, c)].Rank() >= gate.MinRank()
    ensures c !in s.clubs ==> refusal == Some(NoSuchClub)
    ensures c in s.clubs && refusal != None ==> refusal == Some(Forbidden)
  {
    if c !in s.clubs then Some(NoSuchClub)
    else
      var admitted :=
        match gate
        case MembershipRequired => RankMember(s, actor, c)
        case OfficerRequired => RankOfficer(s, actor, c)
        case OwnerRequired => RankOwner(s, actor, c);
      if admitted then None else Some(Forbidden)
  }

  /** Higher gates admit fewer actors. */
  lemma GatesAreNested(s: State, actor: UserId, c: ClubId)
    ensures Admit(s, actor, c, OwnerRequired) == None ==> Admit(s, actor, c, OfficerRequired) == None
    ensures Admit(s, actor, c, OfficerRequired) == None ==> Admit(s, actor, c, MembershipRequired) == None
    ensures Admit(s, actor, c, OwnerRequired) == None <==> IsOwnerOf(s, actor, c) && c in s.clubs
  {
  }

  /** The users holding the Owner role in club `c`. */
  function Owners(s: State, c: ClubId): (owners: set<UserId>)
    ensures forall u :: u in owners <==> IsOwnerOf(s, u, c)
  {
    set p | p in s.roles && p.1 == c && s.roles[p] == Owner :: p.0
  }

  /** `Club.get_owner`: `Membership.objects.get(club, role=OWNER)` raises unless
      exactly one owner exists. */
  function GetOwner(s: State, c: ClubId): (r: Result<UserId>)
    ensures r.Ok? <==> |Owners(s, c)| == 1
    ensures r.Ok? ==> IsOwnerOf(s, r.value, c)
    ensures r.Ok? ==> forall u | IsOwnerOf(s, u, c) :: u == r.value
  {
    GetOne(Owners(s, c))
  }

  /** `Club.get_member_count`: the number of membership rows of the club,
      of any role. It is zero exactly when nobody holds a membership of the
      club, and a user's membership counts once. */
  function MemberCount(s: State, c: ClubId): (n: nat)
    ensures n == 0 <==> forall p | p in s.roles :: p.1 != c
    ensures n <= |s.roles|
  {
    var rows := set p | p in s.roles && p.1 == c;
    SubsetSize(rows, s.roles.Keys);
    assert forall p | p in s.roles && p.1 == c :: p in rows;
    |rows|
  }

  /** `User.clubs()`: the clubs the user has a membership in. */
  function ClubsOf(s: State, u: UserId): (cs: set<ClubId>)
    ensures forall c :: c in cs <==> (u, c) in s.roles
  {
    set p | p in s.roles && p.0 == u :: p.1
  }

  /** `Membership.objects.create`: the `one_membership_per_club` constraint
      refuses a second row for the same user and club. */
  function CreateMembership(s: State, u: UserId, c: ClubId, role: Role): (r: Result<State>)
    ensures r.Err? <==> (u, c) in s.roles
    ensures r.Err? ==> r.error == IntegrityError
    ensures r.Ok? ==> RoleOf(r.value, u, c) == Some(role)
    ensures r.Ok? ==> forall p | p != (u, c) :: (p in r.value.roles <==> p in s.roles)
    ensures r.Ok? ==> forall p | p in s.roles :: r.value.roles[p] == s.roles[p]
    ensures r.Ok? ==> r.value == s.(roles := r.value.roles)
  {
    if (u, c) in s.roles then Err(IntegrityError)
    else Ok(s.(roles := s.roles[(u, c) := role]))
  }
}
