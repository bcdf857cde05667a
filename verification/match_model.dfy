/** `Match` (clubs/models/match_models.py): status predicates, `is_overdue`,
    the club-membership and duplicate checks and the guarded `save` of a new row. */
module MatchModel {
  import opened Base
  import opened Entities
  import opened Roles

  /** A status is decided once it is anything but Pending. */
  predicate Decided(st: MatchStatus)
  {
    st != MatchStatus.Pending
  }

  /** `Match.is_overdue`, with the clock as an integer: the scheduled time has
      been reached. Only the time counts, not the status or the players. */
  predicate IsOverdue(m: Match, now: int): (b: bool)
    ensures forall st: MatchStatus {:trigger m.(status := st)} :: b == (now >= m.(status := st).dateTime)
  {
    now >= m.dateTime
  }

  /** A match that is overdue stays overdue as the clock moves on, and one
      that is not yet due was not due earlier either. */
  lemma OverdueOnceStaysOverdue(m: Match, now: int, later: int)
    requires now <= later
    ensures IsOverdue(m, now) ==> IsOverdue(m, later)
    ensures !IsOverdue(m, later) ==> !IsOverdue(m, now)
  {
  }

  /** `Match.is_in_club`: a membership of any role in the club. */
  predicate IsInClub(s: State, u: UserId, c: ClubId)
  {
    IsMemberOf(s, u, c) || IsOfficerOf(s, u, c) || IsOwnerOf(s, u, c)
  }

  lemma InClubMeansMembership(s: State, u: UserId, c: ClubId)
    ensures IsInClub(s, u, c) <==> (u, c) in s.roles
  {
    ExactRolesPartitionMembership(s, u, c);
  }

  /** `Match.members_from_same_club`: both players hold a membership of the
      match's club, whatever their roles. */
  predicate MembersFromSameClub(s: State, m: Match): (b: bool)
    ensures b <==> (m.player1, m.club) in s.roles && (m.player2, m.club) in s.roles
  {
    InClubMeansMembership(s, m.player1, m.club);
    InClubMeansMembership(s, m.player2, m.club);
    IsInClub(s, m.player1, m.club) && IsInClub(s, m.player2, m.club)
  }

  /** `Match.is_a_duplicate`: a Pending row with the same players in the same
      slots, club, location and time. */
  predicate IsADuplicate(s: State, m: Match): (b: bool)
    ensures b <==> exists k | k in s.matches :: s.matches[k] == m.(status := MatchStatus.Pending)
  {
    exists k | k in s.matches ::
      && s.matches[k].player1 == m.player1
      && s.matches[k].player2 == m.player2
      && s.matches[k].club == m.club
      && s.matches[k].location == m.location
      && s.matches[k].dateTime == m.dateTime
      && s.matches[k].status == MatchStatus.Pending
  }

  /** `Match.save` of a new row. A Pending row needs two distinct players who
      both hold a membership of the match's club and no identical Pending row;
      a refused save raises and writes nothing. A row with a decided status is
      written unchecked. */
  function InsertMatch(s: State, m: Match): (r: Result<(State, MatchId)>)
    ensures m.status != MatchStatus.Pending ==> r.Ok?
    ensures r.Ok? && m.status == MatchStatus.Pending ==>
      && m.player1 != m.player2
      && (m.player1, m.club) in s.roles && (m.player2, m.club) in s.roles
      && !IsADuplicate(s, m)
    ensures (&& m.status == MatchStatus.Pending && m.player1 != m.player2
             && (m.player1, m.club) in s.roles && (m.player2, m.club) in s.roles
             && !IsADuplicate(s, m)) ==> r.Ok?
    ensures r.Err? ==> r.error == IntegrityError
    ensures r.Ok? ==> r.value.1 == s.nextId && r.value.0.matches == s.matches[s.nextId := m]
    ensures r.Ok? ==> r.value.0 == s.(matches := r.value.0.matches, nextId := s.nextId + 1)
    ensures r.Ok? && CounterAhead(s) ==> r.value.1 !in s.matches && CounterAhead(r.value.0)
  {
    InClubMeansMembership(s, m.player1, m.club);
    InClubMeansMembership(s, m.player2, m.club);
    if (!MembersFromSameClub(s, m) || m.player1 == m.player2 || IsADuplicate(s, m))
       && m.status == MatchStatus.Pending then
      Err(IntegrityError)
    else
      var id := s.nextId;
      Ok((s.(matches := s.matches[id := m], nextId := id + 1), id))
  }

  /** `Match.save` of a row already stored under `id`: the same guard as for
      a new row. A decided status is written unchecked. */
  function UpdateMatch(s: State, id: MatchId, m: Match): (r: Result<State>)
    requires id in s.matches
    ensures m.status != MatchStatus.Pending ==> r == Ok(s.(matches := s.matches[id := m]))
    ensures r.Err? <==>
      && m.status == MatchStatus.Pending
      && (m.player1 == m.player2 || (m.player1, m.club) !in s.roles || (m.player2, m.club) !in s.roles
          || IsADuplicate(s, m))
    ensures r.Err? ==> r.error == IntegrityError
    ensures r.Ok? ==> r.value == s.(matches := s.matches[id := m])
  {
    InClubMeansMembership(s, m.player1, m.club);
    InClubMeansMembership(s, m.player2, m.club);
    if (!MembersFromSameClub(s, m) || m.player1 == m.player2 || IsADuplicate(s, m))
       && m.status == MatchStatus.Pending then
      Err(IntegrityError)
    else
      Ok(s.(matches := s.matches[id := m]))
  }

  /** The duplicate query does not leave the saved row out, so a stored
      Pending match cannot be saved again unchanged: it is its own duplicate. */
  lemma ResavingAPendingMatchFails(s: State, id: MatchId)
    requires id in s.matches && s.matches[id].status == MatchStatus.Pending
    ensures UpdateMatch(s, id, s.matches[id]) == Err(IntegrityError)
  {
    assert IsADuplicate(s, s.matches[id]);
  }

  /** Who won a match, read off its status: `Player1` and `Player2` name the
      winning slot; a Pending, drawn or cancelled match has no winner. */
  function Winner(m: Match): (w: Option<UserId>)
    ensures w.Some? <==> m.status in {MatchStatus.Player1, MatchStatus.Player2}
    ensures w.Some? ==> w.value in {m.player1, m.player2}
  {
    match m.status
    case Player1 => Some(m.player1)
    case Player2 => Some(m.player2)
    case _ => None
  }

  /** The duplicate check compares the player slots in order: with a Pending
      match of A against B on record, the same fixture with B as player 1 is
      still written. */
  lemma DuplicateCheckIsOrderSensitive(s: State, k: MatchId, m: Match)
    requires CounterAhead(s)
    requires s.matches == map[k := m]
    requires m.status == MatchStatus.Pending && m.player1 != m.player2
    requires (m.player1, m.club) in s.roles && (m.player2, m.club) in s.roles
    ensures InsertMatch(s, m).Err?
    ensures InsertMatch(s, m.(player1 := m.player2, player2 := m.player1)).Ok?
  {
    assert s.matches[k] == m;
    var swapped := m.(player1 := m.player2, player2 := m.player1);
    assert !IsADuplicate(s, swapped) by {
      forall j | j in s.matches
        ensures s.matches[j].player1 != swapped.player1
      {
        assert j == k;
      }
    }
  }
}
