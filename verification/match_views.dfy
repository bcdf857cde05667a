/** The match views: creating a match (clubs/views/club_views/club_match_views.py
    with clubs/forms/match_froms.py), and changing its outcome through the
    shared `ChangeMatchOutcome` dispatch of clubs/views/helpers.py (update and
    cancel by an officer, forfeit by a player, clubs/views/match_views.py). */
module MatchViews {
  import opened Base
  import opened Entities
  import opened Roles
  import opened Fields
  import opened MatchModel
  import opened Invariants

  /** The posted create-match form. A player is chosen by primary key; a
      missing choice, like a missing or unparsable date and time, is `None`. */
  datatype MatchForm = MatchForm(
    player1: Option<UserId>,
    player2: Option<UserId>,
    location: string,
    dateTime: Option<int>)

  /** A player choice is valid when it names a user holding a membership of
      the club: the queryset the form offers. */
  predicate ValidPlayer(s: State, c: ClubId, p: Option<UserId>)
  {
    p.Some? && p.value in s.users && (p.value, c) in s.roles
  }

  /** The field cleaning `ModelForm.is_valid` does before the form's own checks. */
  predicate FieldsClean(s: State, c: ClubId, f: MatchForm)
  {
    && ValidPlayer(s, c, f.player1)
    && ValidPlayer(s, c, f.player2)
    && MatchLocationValid(f.location)
    && f.dateTime.Some?
  }

  /** `u` plays a stored match at time `t`, in either slot, whatever the
      match's club and status. */
  predicate BusyAt(s: State, u: UserId, t: int)
  {
    exists k | k in s.matches ::
      s.matches[k].dateTime == t && (s.matches[k].player1 == u || s.matches[k].player2 == u)
  }

  /** `CreateMatchForm.is_valid`: the field checks, then identical players,
      then a match of either player at the same time, then a time that is not
      after `now`. The first failing check names the problem. */
  function CheckMatchForm(s: State, c: ClubId, f: MatchForm, now: int): (r: Option<Problem>)
    ensures r == Some(BadFields) <==> !FieldsClean(s, c, f)
    ensures r == Some(SamePlayers) <==> FieldsClean(s, c, f) && f.player1 == f.player2
    ensures r == Some(ScheduleConflict) <==>
      && FieldsClean(s, c, f) && f.player1 != f.player2
      && (BusyAt(s, f.player1.value, f.dateTime.value) || BusyAt(s, f.player2.value, f.dateTime.value))
    ensures r == Some(NotInFuture) <==>
      && FieldsClean(s, c, f) && f.player1 != f.player2
      && !BusyAt(s, f.player1.value, f.dateTime.value) && !BusyAt(s, f.player2.value, f.dateTime.value)
      && f.dateTime.value <= now
    ensures r == None <==>
      && FieldsClean(s, c, f) && f.player1 != f.player2
      && !BusyAt(s, f.player1.value, f.dateTime.value) && !BusyAt(s, f.player2.value, f.dateTime.value)
      && now < f.dateTime.value
  {
    if !FieldsClean(s, c, f) then Some(BadFields)
    else if f.player1 == f.player2 then Some(SamePlayers)
    else if BusyAt(s, f.player1.value, f.dateTime.value) || BusyAt(s, f.player2.value, f.dateTime.value) then
      Some(ScheduleConflict)
    else if f.dateTime.value <= now then Some(NotInFuture)
    else None
  }

  /** The row `CreateMatchForm.save` creates: a Pending match in the route's club. */
  function FormMatch(c: ClubId, f: MatchForm): Match
    requires f.player1.Some? && f.player2.Some? && f.dateTime.Some?
  {
    Match(f.player1.value, f.player2.value, c, f.location, f.dateTime.value, MatchStatus.Pending)
  }

  /** The write of a new match: the row at the next id. */
  function Schedule(s: State, m: Match): (t: State)
    ensures t.matches == s.matches[s.nextId := m] && t.nextId == s.nextId + 1
    ensures t == s.(matches := t.matches, nextId := t.nextId)
  {
    s.(matches := s.matches[s.nextId := m], nextId := s.nextId + 1)
  }

  /** A form that passed its checks never trips the save guard: the players
      differ, both are in the club, and a Pending duplicate would have been a
      schedule conflict. */
  lemma AcceptedFormSaves(s: State, c: ClubId, f: MatchForm, now: int)
    requires CheckMatchForm(s, c, f, now) == None
    ensures InsertMatch(s, FormMatch(c, f)) == Ok((Schedule(s, FormMatch(c, f)), s.nextId))
  {
  }

  /** `CreateMatchView.post`: an officer of the club posts the form; a valid
      form creates a Pending match between the two chosen members. */
  function CreateMatch(s: State, actor: UserId, c: ClubId, f: MatchForm, now: int): (r: Response)
    ensures Admit(s, actor, c, OfficerRequired).Some? ==>
      r == Response(s, Admit(s, actor, c, OfficerRequired).value)
    ensures Admit(s, actor, c, OfficerRequired) == None && CheckMatchForm(s, c, f, now).Some? ==>
      r == Response(s, Invalid(CheckMatchForm(s, c, f, now).value))
    ensures r.outcome == Done <==>
      Admit(s, actor, c, OfficerRequired) == None && CheckMatchForm(s, c, f, now) == None
    ensures r.outcome == Done ==> r.state == Schedule(s, FormMatch(c, f))
    ensures r.outcome == Done ==>
      && r.state.matches[s.nextId].status == MatchStatus.Pending
      && r.state.matches[s.nextId].club == c
      && r.state.matches[s.nextId].player1 != r.state.matches[s.nextId].player2
    ensures r.outcome != Done ==> r.state == s
  {
    match Admit(s, actor, c, OfficerRequired)
    case Some(refusal) => Response(s, refusal)
    case None =>
      match CheckMatchForm(s, c, f, now)
      case Some(problem) => Response(s, Invalid(problem))
      case None =>
        AcceptedFormSaves(s, c, f, now);
        Response(InsertMatch(s, FormMatch(c, f)).value.0, Done)
  }

  /** Posting the same form again right after it created a match is refused
      as a schedule conflict: the new match occupies both players at that time. */
  lemma CreateMatchTwiceConflicts(s: State, actor: UserId, c: ClubId, f: MatchForm, now: int)
    requires CreateMatch(s, actor, c, f, now).outcome == Done
    ensures CreateMatch(CreateMatch(s, actor, c, f, now).state, actor, c, f, now)
      == Response(CreateMatch(s, actor, c, f, now).state, Invalid(ScheduleConflict))
  {
    var t := CreateMatch(s, actor, c, f, now).state;
    assert t.matches[s.nextId] == FormMatch(c, f);
    assert BusyAt(t, f.player1.value, f.dateTime.value);
  }

  /** The conflict check looks at every stored match: one that shares a
      player and the time blocks the new match whatever its club and status,
      a cancelled match in another club included. */
  lemma ConflictIgnoresClubAndStatus(s: State, c: ClubId, f: MatchForm, now: int, k: MatchId)
    requires f.player1.Some? && f.dateTime.Some?
    requires k in s.matches && s.matches[k].dateTime == f.dateTime.value
    requires s.matches[k].player1 == f.player1.value || s.matches[k].player2 == f.player1.value
    ensures CheckMatchForm(s, c, f, now) in {Some(BadFields), Some(SamePlayers), Some(ScheduleConflict)}
  {
    assert BusyAt(s, f.player1.value, f.dateTime.value);
  }

  /** `UpdateMatchOutcomeForm.status`: a choice among every status but Pending,
      given by its stored name. */
  function ParseOutcome(value: string): (r: Option<MatchStatus>)
    ensures r.Some? ==> r.value != MatchStatus.Pending
  {
    if value == "Player1" then Some(MatchStatus.Player1)
    else if value == "Player2" then Some(MatchStatus.Player2)
    else if value == "Draw" then Some(Draw)
    else if value == "Cancelled" then Some(Cancelled)
    else None
  }

  /** The name a status is stored under (`Match.STATUS`). */
  function StatusName(st: MatchStatus): (name: string)
  {
    match st
    case Pending => "Pending"
    case Player1 => "Player1"
    case Player2 => "Player2"
    case Draw => "Draw"
    case Cancelled => "Cancelled"
  }

  /** Different statuses are stored under different names. */
  lemma StatusNamesAreDistinct(a: MatchStatus, b: MatchStatus)
    ensures StatusName(a) == StatusName(b) <==> a == b
  {
  }

  /** Every status but Pending can be chosen by its name, and Pending cannot. */
  lemma ParseOutcomeReadsStatusName(st: MatchStatus)
    ensures ParseOutcome(StatusName(st)) == if st == MatchStatus.Pending then None else Some(st)
  {
  }

  /** A value the form accepts is exactly the name of the status it yields. */
  lemma StatusNameWritesParseOutcome(value: string)
    ensures ParseOutcome(value).Some? ==> StatusName(ParseOutcome(value).value) == value
  {
  }

  /** The write of an outcome change: `match.status = …; match.save()`. The
      save guard only checks Pending rows, so a decided status is always
      written, and nothing but that row's status changes. */
  function SetStatus(s: State, id: MatchId, st: MatchStatus): (t: State)
    requires id in s.matches && st != MatchStatus.Pending
    ensures t == s.(matches := t.matches)
    ensures t.matches.Keys == s.matches.Keys
    ensures t.matches[id] == s.matches[id].(status := st)
    ensures forall k | k in s.matches && k != id :: t.matches[k] == s.matches[k]
  {
    UpdateMatch(s, id, s.matches[id].(status := st)).value
  }

  /** The outcome of a change that ran: `handle` queues a refusal message
      when it objects, but its redirect is dropped and the change goes ahead. */
  function Ran(objected: bool): (o: Outcome)
    ensures o in {Done, DoneDespiteRefusal}
    ensures o == Done <==> !objected
  {
    if objected then DoneDespiteRefusal else Done
  }

  /** The lookups `ChangeMatchOutcome.dispatch` makes before the view's own
      handler: the match must exist and belong to the route's club, else the
      request is redirected as not found. */
  predicate MatchOfClub(s: State, c: ClubId, id: MatchId)
  {
    id in s.matches && s.matches[id].club == c
  }

  /** `UpdateMatchOutcomeView.handle` objects to a match that is not yet
      overdue or already decided. */
  predicate UpdateObjects(m: Match, now: int)
  {
    !IsOverdue(m, now) || Decided(m.status)
  }

  /** `UpdateMatchOutcomeView.post` behind the officer gate: a valid status
      choice is written, whether or not `handle` objected. */
  function UpdateMatchOutcome(s: State, actor: UserId, c: ClubId, id: MatchId, value: string, now: int): (r: Response)
    ensures Admit(s, actor, c, OfficerRequired).Some? ==>
      r == Response(s, Admit(s, actor, c, OfficerRequired).value)
    ensures Admit(s, actor, c, OfficerRequired) == None && !MatchOfClub(s, c, id) ==>
      r == Response(s, NotFound)
    ensures r.outcome in {Done, DoneDespiteRefusal} <==>
      Admit(s, actor, c, OfficerRequired) == None && MatchOfClub(s, c, id) && ParseOutcome(value).Some?
    ensures r.outcome == Done <==>
      && Admit(s, actor, c, OfficerRequired) == None && MatchOfClub(s, c, id) && ParseOutcome(value).Some?
      && IsOverdue(s.matches[id], now) && s.matches[id].status == MatchStatus.Pending
    ensures r.outcome in {Done, DoneDespiteRefusal} ==>
      r.state == SetStatus(s, id, ParseOutcome(value).value)
    ensures r.outcome == Invalid(BadFields) <==>
      Admit(s, actor, c, OfficerRequired) == None && MatchOfClub(s, c, id) && ParseOutcome(value).None?
    ensures r.outcome !in {Done, DoneDespiteRefusal} ==> r.state == s
  {
    match Admit(s, actor, c, OfficerRequired)
    case Some(refusal) => Response(s, refusal)
    case None =>
      if id !in s.matches then Response(s, NotFound)
      else
        var objected := UpdateObjects(s.matches[id], now);
        if s.matches[id].club != c then Response(s, NotFound)
        else
          match ParseOutcome(value)
          case None => Response(s, Invalid(BadFields))
          case Some(st) => Response(SetStatus(s, id, st), Ran(objected))
  }

  /** An update that ran leaves the match with the status whose name was
      posted, and every other match as it was. */
  lemma UpdateStoresPostedStatus(s: State, actor: UserId, c: ClubId, id: MatchId, value: string, now: int)
    requires UpdateMatchOutcome(s, actor, c, id, value, now).outcome in {Done, DoneDespiteRefusal}
    ensures StatusName(UpdateMatchOutcome(s, actor, c, id, value, now).state.matches[id].status) == value
    ensures forall k | k in s.matches && k != id ::
      UpdateMatchOutcome(s, actor, c, id, value, now).state.matches[k] == s.matches[k]
  {
    StatusNameWritesParseOutcome(value);
  }

  /** `CancelMatchView` (GET or POST) behind the officer gate: the match is
      set to Cancelled; `handle` objects to a decided match but does not stop it. */
  function CancelMatch(s: State, actor: UserId, c: ClubId, id: MatchId): (r: Response)
    ensures Admit(s, actor, c, OfficerRequired).Some? ==>
      r == Response(s, Admit(s, actor, c, OfficerRequired).value)
    ensures r.outcome in {Done, DoneDespiteRefusal} <==>
      Admit(s, actor, c, OfficerRequired) == None && MatchOfClub(s, c, id)
    ensures r.outcome == Done <==>
      Admit(s, actor, c, OfficerRequired) == None && MatchOfClub(s, c, id)
      && s.matches[id].status == MatchStatus.Pending
    ensures r.outcome in {Done, DoneDespiteRefusal} ==> r.state == SetStatus(s, id, Cancelled)
    ensures Admit(s, actor, c, OfficerRequired) == None && !MatchOfClub(s, c, id) ==>
      r == Response(s, NotFound)
  {
    match Admit(s, actor, c, OfficerRequired)
    case Some(refusal) => Response(s, refusal)
    case None =>
      if id !in s.matches then Response(s, NotFound)
      else
        var objected := Decided(s.matches[id].status);
        if s.matches[id].club != c then Response(s, NotFound)
        else Response(SetStatus(s, id, Cancelled), Ran(objected))
  }

  /** Cancelling twice is cancelling once: the second request changes nothing
      and only adds the refusal message. */
  lemma CancelIsIdempotent(s: State, actor: UserId, c: ClubId, id: MatchId)
    requires CancelMatch(s, actor, c, id).outcome in {Done, DoneDespiteRefusal}
    ensures CancelMatch(CancelMatch(s, actor, c, id).state, actor, c, id)
      == Response(CancelMatch(s, actor, c, id).state, DoneDespiteRefusal)
  {
    var t := CancelMatch(s, actor, c, id).state;
    assert t.matches[id].status == Cancelled;
    assert SetStatus(t, id, Cancelled) == t;
  }

  /** `ForfeitMatchView.get` behind the login check only: a player of the
      match forfeits it, which records the other slot as the winner; anyone
      else is refused. `handle` objects to a decided match but does not stop it. */
  function ForfeitMatch(s: State, actor: UserId, c: ClubId, id: MatchId): (r: Response)
    ensures !MatchOfClub(s, c, id) ==> r == Response(s, NotFound)
    ensures r.outcome in {Done, DoneDespiteRefusal} <==>
      MatchOfClub(s, c, id) && actor in {s.matches[id].player1, s.matches[id].player2}
    ensures r.outcome == Done <==>
      MatchOfClub(s, c, id) && actor in {s.matches[id].player1, s.matches[id].player2}
      && s.matches[id].status == MatchStatus.Pending
    ensures r.outcome in {Done, DoneDespiteRefusal} ==>
      r.state == SetStatus(s, id, if actor == s.matches[id].player1 then MatchStatus.Player2 else MatchStatus.Player1)
    ensures MatchOfClub(s, c, id) && actor !in {s.matches[id].player1, s.matches[id].player2} ==>
      r == Response(s, Forbidden)
  {
    if id !in s.matches then Response(s, NotFound)
    else
      var m := s.matches[id];
      var objected := Decided(m.status);
      if m.club != c then Response(s, NotFound)
      else if actor == m.player1 then Response(SetStatus(s, id, MatchStatus.Player2), Ran(objected))
      else if actor == m.player2 then Response(SetStatus(s, id, MatchStatus.Player1), Ran(objected))
      else Response(s, Forbidden)
  }

  /** In a match between two different users, forfeiting hands the win to the
      opponent, and the forfeiting player is never the winner. */
  lemma ForfeitHandsTheWinToTheOpponent(s: State, actor: UserId, c: ClubId, id: MatchId)
    requires NoSelfMatch(s)
    requires ForfeitMatch(s, actor, c, id).outcome in {Done, DoneDespiteRefusal}
    ensures Winner(ForfeitMatch(s, actor, c, id).state.matches[id]).Some?
    ensures Winner(ForfeitMatch(s, actor, c, id).state.matches[id]).value != actor
    ensures Winner(ForfeitMatch(s, actor, c, id).state.matches[id]).value
      in {s.matches[id].player1, s.matches[id].player2}
  {
  }

  // Keeping the database good.

  lemma MatchWriteKeepsTheRest(s: State, t: State)
    requires OneOwnerPerClub(s) && AtMostOneOpenApplication(s)
    requires MembershipsMatchAcceptance(s) && UniqueColumns(s)
    requires t == s.(matches := t.matches, nextId := t.nextId)
    ensures OneOwnerPerClub(t) && AtMostOneOpenApplication(t)
    ensures MembershipsMatchAcceptance(t) && UniqueColumns(t)
  {
    SameRolesSameOwners(s, t);
    RoleChangeKeepsAcceptance(s, t);
  }

  lemma ScheduleKeepsMatchRows(s: State, m: Match)
    requires CounterAhead(s) && RowsReferToLiveRows(s) && NoSelfMatch(s)
    requires m.player1 in s.users && m.player2 in s.users && m.club in s.clubs
    requires m.player1 != m.player2
    ensures CounterAhead(Schedule(s, m)) && RowsReferToLiveRows(Schedule(s, m)) && NoSelfMatch(Schedule(s, m))
  {
  }

  lemma ScheduleKeepsGood(s: State, m: Match)
    requires Good(s)
    requires m.player1 in s.users && m.player2 in s.users && m.club in s.clubs
    requires m.player1 != m.player2
    ensures Good(Schedule(s, m))
  {
    ScheduleKeepsMatchRows(s, m);
    MatchWriteKeepsTheRest(s, Schedule(s, m));
  }

  lemma CreateMatchDoneKeepsGood(s: State, actor: UserId, c: ClubId, f: MatchForm, now: int)
    requires Good(s)
    requires CreateMatch(s, actor, c, f, now).outcome == Done
    ensures Good(CreateMatch(s, actor, c, f, now).state)
  {
    assert c in s.clubs;
    ScheduleKeepsGood(s, FormMatch(c, f));
  }

  /** Creating a match keeps a good database good. */
  lemma CreateMatchPreservesGood(s: State, actor: UserId, c: ClubId, f: MatchForm, now: int)
    requires Good(s)
    ensures Good(CreateMatch(s, actor, c, f, now).state)
  {
    if CreateMatch(s, actor, c, f, now).outcome == Done {
      CreateMatchDoneKeepsGood(s, actor, c, f, now);
    }
  }

  lemma StatusChangeKeepsMatchRows(s: State, id: MatchId, st: MatchStatus)
    requires CounterAhead(s) && RowsReferToLiveRows(s) && NoSelfMatch(s)
    requires id in s.matches && st != MatchStatus.Pending
    ensures CounterAhead(SetStatus(s, id, st)) && RowsReferToLiveRows(SetStatus(s, id, st))
    ensures NoSelfMatch(SetStatus(s, id, st))
  {
  }

  lemma StatusChangeKeepsGood(s: State, id: MatchId, st: MatchStatus)
    requires Good(s) && id in s.matches && st != MatchStatus.Pending
    ensures Good(SetStatus(s, id, st))
  {
    StatusChangeKeepsMatchRows(s, id, st);
    MatchWriteKeepsTheRest(s, SetStatus(s, id, st));
  }

  /** Updating an outcome keeps a good database good. */
  lemma UpdateMatchOutcomePreservesGood(s: State, actor: UserId, c: ClubId, id: MatchId, value: string, now: int)
    requires Good(s)
    ensures Good(UpdateMatchOutcome(s, actor, c, id, value, now).state)
  {
    if UpdateMatchOutcome(s, actor, c, id, value, now).outcome in {Done, DoneDespiteRefusal} {
      StatusChangeKeepsGood(s, id, ParseOutcome(value).value);
    }
  }

  /** Cancelling keeps a good database good. */
  lemma CancelMatchPreservesGood(s: State, actor: UserId, c: ClubId, id: MatchId)
    requires Good(s)
    ensures Good(CancelMatch(s, actor, c, id).state)
  {
    if CancelMatch(s, actor, c, id).outcome in {Done, DoneDespiteRefusal} {
      StatusChangeKeepsGood(s, id, Cancelled);
    }
  }

  /** Forfeiting keeps a good database good. */
  lemma ForfeitMatchPreservesGood(s: State, actor: UserId, c: ClubId, id: MatchId)
    requires Good(s)
    ensures Good(ForfeitMatch(s, actor, c, id).state)
  {
    if ForfeitMatch(s, actor, c, id).outcome in {Done, DoneDespiteRefusal} {
      StatusChangeKeepsGood(s, id, if actor == s.matches[id].player1 then MatchStatus.Player2 else MatchStatus.Player1);
    }
  }
}
