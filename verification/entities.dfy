/** The persisted rows of the club application (users, clubs, memberships,
    applications and matches) and the whole database as one immutable value.
    Every view is modelled as a function from a `State` to a `Response`. */
module Entities {
  import opened Base

  type UserId = nat
  type ClubId = nat
  type AppId = nat
  type MatchId = nat

  /** A stored password. Hashing is left abstract: the model keeps what was hashed. */
  datatype Credential = Unusable | HashOf(secret: string)

  datatype User = User(
    username: string,
    firstName: string,
    lastName: string,
    email: string,
    bio: string,
    experienceLevel: string,
    credential: Credential,
    isStaff: bool,
    isSuperuser: bool)

  datatype Club = Club(name: string, location: string, description: string)

  /** `Membership.role`. The three roles are ordered Member < Officer < Owner. */
  datatype Role = Member | Officer | Owner {
    function Rank(): (k: nat)
      ensures 1 <= k <= 3
      ensures k == 3 <==> this == Owner
      ensures k == 1 <==> this == Member
    {
      match this
      case Member => 1
      case Officer => 2
      case Owner => 3
    }
  }

  /** `Application.status`. */
  datatype AppStatus = Pending | Accepted | Rejected

  datatype Application = Application(
    user: UserId,
    club: ClubId,
    statement: string,
    status: AppStatus)
  {
    /** Pending and Accepted applications are the ones the save guard counts. */
    predicate Open() { status != Rejected }
  }

  /** `Match.status`. `Player1` and `Player2` name the winner. */
  datatype MatchStatus = Pending | Player1 | Player2 | Draw | Cancelled

  /** A match; `dateTime` is a point in time as an integer, like the `now` the
      operations receive. */
  datatype Match = Match(
    player1: UserId,
    player2: UserId,
    club: ClubId,
    location: string,
    dateTime: int,
    status: MatchStatus)

  /** The database. A membership row is the pair key of `roles`, so the
      `(user, club)` uniqueness constraint holds by construction; `nextId` stands
      for the auto-increment counter that hands out fresh primary keys. */
  datatype State = State(
    users: map<UserId, User>,
    clubs: map<ClubId, Club>,
    roles: map<(UserId, ClubId), Role>,
    applications: map<AppId, Application>,
    matches: map<MatchId, Match>,
    nextId: nat)

  /** Every primary key in use is below the auto-increment counter, so
      `nextId` is free in every table. */
  predicate CounterAhead(s: State)
  {
    && (forall u | u in s.users :: u < s.nextId)
    && (forall c | c in s.clubs :: c < s.nextId)
    && (forall a | a in s.applications :: a < s.nextId)
    && (forall m | m in s.matches :: m < s.nextId)
  }

  /** Why a form was refused. */
  datatype Problem =
    | BadFields          // a field is missing, blank, too long or not a valid choice
    | SamePlayers        // both players are the same user
    | ScheduleConflict   // a player already has a match at that date and time
    | NotInFuture        // the match date and time is not after now
    | WrongPassword      // the current password did not check out

  /** What a request comes to, with flash messages and redirect targets
      abstracted away. */
  datatype Outcome =
    | Done                // the request took effect
    | DoneDespiteRefusal  // a refusal message was queued, yet the change still ran
    | NoSuchClub          // the route's club does not exist
    | Forbidden           // the actor's role is too low
    | NotFound            // a looked-up row does not exist (or is not the route's)
    | Refused             // the row is not in a state the handler acts on
    | Invalid(problem: Problem)
    | ServerError(error: DbError) // an uncaught exception; earlier writes persist

  datatype Response = Response(state: State, outcome: Outcome)

  /** What a read-only page comes to: the data it shows, or the outcome that
      kept it from showing anything (a redirect or an uncaught exception). */
  datatype Page<T> = Shown(value: T) | Withheld(reason: Outcome)

  /** `club.delete()`: the club goes, and with it every membership, application
      and match that refers to it (all three foreign keys cascade). */
  function DeleteClubRows(s: State, c: ClubId): (t: State)
    ensures t.clubs.Keys == s.clubs.Keys - {c}
    ensures forall d | d in t.clubs :: t.clubs[d] == s.clubs[d]
    ensures t.users == s.users && t.nextId == s.nextId
    ensures forall p :: p in t.roles <==> p in s.roles && p.1 != c
    ensures forall p | p in t.roles :: t.roles[p] == s.roles[p]
    ensures forall a :: a in t.applications <==> a in s.applications && s.applications[a].club != c
    ensures forall a | a in t.applications :: t.applications[a] == s.applications[a]
    ensures forall m :: m in t.matches <==> m in s.matches && s.matches[m].club != c
    ensures forall m | m in t.matches :: t.matches[m] == s.matches[m]
  {
    s.(clubs := s.clubs - {c},
       roles := map p | p in s.roles && p.1 != c :: s.roles[p],
       applications := map a | a in s.applications && s.applications[a].club != c :: s.applications[a],
       matches := map m | m in s.matches && s.matches[m].club != c :: s.matches[m])
  }

  /** `user.delete()`: the user goes, and with them every membership and
      application of theirs and every match they play in either slot. */
  function DeleteUserRows(s: State, u: UserId): (t: State)
    ensures t.users.Keys == s.users.Keys - {u}
    ensures forall v | v in t.users :: t.users[v] == s.users[v]
    ensures t.clubs == s.clubs && t.nextId == s.nextId
    ensures forall p :: p in t.roles <==> p in s.roles && p.0 != u
    ensures forall p | p in t.roles :: t.roles[p] == s.roles[p]
    ensures forall a :: a in t.applications <==> a in s.applications && s.applications[a].user != u
    ensures forall a | a in t.applications :: t.applications[a] == s.applications[a]
    ensures forall m :: m in t.matches <==>
      m in s.matches && s.matches[m].player1 != u && s.matches[m].player2 != u
    ensures forall m | m in t.matches :: t.matches[m] == s.matches[m]
  {
    s.(users := s.users - {u},
       roles := map p | p in s.roles && p.0 != u :: s.roles[p],
       applications := map a | a in s.applications && s.applications[a].user != u :: s.applications[a],
       matches := map m | m in s.matches && s.matches[m].player1 != u && s.matches[m].player2 != u
                        :: s.matches[m])
  }
}
