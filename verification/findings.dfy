/** Two places where the code does something other than what it evidently
    means to do, each as written (in the modules that model the views) and as
    corrected here, with the property the correction restores. */
module Findings {
  import opened Base
  import opened Entities
  import opened Roles
  import opened MatchModel
  import opened MatchViews
  import opened Accounts
  import opened Invariants

  // 1. `ChangeMatchOutcome.dispatch` calls `handle` and drops the redirect it
  //    returns, so "this match already has a result" does not stop the change.

  /** As written, cancelling a decided match overwrites its result. */
  lemma CancelOverwritesADecidedMatch(s: State, actor: UserId, c: ClubId, id: MatchId)
    requires Admit(s, actor, c, OfficerRequired) == None && MatchOfClub(s, c, id)
    requires s.matches[id].status == MatchStatus.Player1
    ensures CancelMatch(s, actor, c, id).outcome == DoneDespiteRefusal
    ensures CancelMatch(s, actor, c, id).state.matches[id].status == Cancelled
  {
  }

  /** As written, a winner who forfeits a match they already won hands the
      win to the loser. */
  lemma ForfeitFlipsADecidedMatch(s: State, c: ClubId, id: MatchId)
    requires MatchOfClub(s, c, id) && s.matches[id].status == MatchStatus.Player1
    ensures ForfeitMatch(s, s.matches[id].player1, c, id).outcome == DoneDespiteRefusal
    ensures ForfeitMatch(s, s.matches[id].player1, c, id).state.matches[id].status == MatchStatus.Player2
  {
  }

  /** As written, an officer can record a result for a match that has not
      been played yet. */
  lemma UpdateRecordsAFutureMatch(s: State, actor: UserId, c: ClubId, id: MatchId, now: int)
    requires Admit(s, actor, c, OfficerRequired) == None && MatchOfClub(s, c, id)
    requires now < s.matches[id].dateTime
    ensures UpdateMatchOutcome(s, actor, c, id, "Draw", now).outcome == DoneDespiteRefusal
    ensures UpdateMatchOutcome(s, actor, c, id, "Draw", now).state.matches[id].status == Draw
  {
  }

  /** The update with `handle`'s redirect honoured: a match that is not
      overdue or already decided is left alone. */
  function CheckedUpdateMatchOutcome(s: State, actor: UserId, c: ClubId, id: MatchId, value: string, now: int): (r: Response)
    ensures r.outcome == Refused <==>
      Admit(s, actor, c, OfficerRequired) == None && id in s.matches && UpdateObjects(s.matches[id], now)
    ensures r.outcome != Done ==> r.state == s
    ensures r.outcome == Done ==>
      && Admit(s, actor, c, OfficerRequired) == None && MatchOfClub(s, c, id) && ParseOutcome(value).Some?
      && r.state == SetStatus(s, id, ParseOutcome(value).value)
  {
    match Admit(s, actor, c, OfficerRequired)
    case Some(refusal) => Response(s, refusal)
    case None =>
      if id !in s.matches then Response(s, NotFound)
      else if UpdateObjects(s.matches[id], now) then Response(s, Refused)
      else if s.matches[id].club != c then Response(s, NotFound)
      else
        match ParseOutcome(value)
        case None => Response(s, Invalid(BadFields))
        case Some(st) => Response(SetStatus(s, id, st), Done)
  }

  /** The cancel with `handle`'s redirect honoured. */
  function CheckedCancelMatch(s: State, actor: UserId, c: ClubId, id: MatchId): (r: Response)
    ensures r.outcome == Refused <==>
      Admit(s, actor, c, OfficerRequired) == None && id in s.matches && Decided(s.matches[id].status)
    ensures r.outcome != Done ==> r.state == s
    ensures r.outcome == Done ==>
      Admit(s, actor, c, OfficerRequired) == None && MatchOfClub(s, c, id) && r.state == SetStatus(s, id, Cancelled)
  {
    match Admit(s, actor, c, OfficerRequired)
    case Some(refusal) => Response(s, refusal)
    case None =>
      if id !in s.matches then Response(s, NotFound)
      else if Decided(s.matches[id].status) then Response(s, Refused)
      else if s.matches[id].club != c then Response(s, NotFound)
      else Response(SetStatus(s, id, Cancelled), Done)
  }

  /** The forfeit with `handle`'s redirect honoured. */
  function CheckedForfeitMatch(s: State, actor: UserId, c: ClubId, id: MatchId): (r: Response)
    ensures r.outcome == Refused <==> id in s.matches && Decided(s.matches[id].status)
    ensures r.outcome != Done ==> r.state == s
    ensures r.outcome == Done ==> MatchOfClub(s, c, id) && actor in {s.matches[id].player1, s.matches[id].player2}
    ensures r.outcome == Done ==> id in r.state.matches && Winner(r.state.matches[id]).Some?
    ensures r.outcome == Done ==>
      r.state == SetStatus(s, id, if actor == s.matches[id].player1 then MatchStatus.Player2 else MatchStatus.Player1)
  {
    if id !in s.matches then Response(s, NotFound)
    else
      var m := s.matches[id];
      if Decided(m.status) then Response(s, Refused)
      else if m.club != c then Response(s, NotFound)
      else if actor == m.player1 then Response(SetStatus(s, id, MatchStatus.Player2), Done)
      else if actor == m.player2 then Response(SetStatus(s, id, MatchStatus.Player1), Done)
      else Response(s, Forbidden)
  }

  /** With the redirect honoured a decided match is final: no update, cancel
      or forfeit request changes the database. */
  lemma DecidedMatchesAreTerminal(s: State, actor: UserId, c: ClubId, id: MatchId, value: string, now: int)
    requires id in s.matches && Decided(s.matches[id].status)
    ensures CheckedUpdateMatchOutcome(s, actor, c, id, value, now).state == s
    ensures CheckedCancelMatch(s, actor, c, id).state == s
    ensures CheckedForfeitMatch(s, actor, c, id).state == s
  {
  }

  /** The corrected views keep a good database good, like the written ones. */
  lemma CheckedUpdateMatchOutcomePreservesGood(s: State, actor: UserId, c: ClubId, id: MatchId, value: string, now: int)
    requires Good(s)
    ensures Good(CheckedUpdateMatchOutcome(s, actor, c, id, value, now).state)
  {
    if CheckedUpdateMatchOutcome(s, actor, c, id, value, now).outcome == Done {
      StatusChangeKeepsGood(s, id, ParseOutcome(value).value);
    }
  }

  lemma CheckedCancelMatchPreservesGood(s: State, actor: UserId, c: ClubId, id: MatchId)
    requires Good(s)
    ensures Good(CheckedCancelMatch(s, actor, c, id).state)
  {
    if CheckedCancelMatch(s, actor, c, id).outcome == Done {
      StatusChangeKeepsGood(s, id, Cancelled);
    }
  }

  lemma CheckedForfeitMatchPreservesGood(s: State, actor: UserId, c: ClubId, id: MatchId)
    requires Good(s)
    ensures Good(CheckedForfeitMatch(s, actor, c, id).state)
  {
    if CheckedForfeitMatch(s, actor, c, id).outcome == Done {
      StatusChangeKeepsGood(s, id, if actor == s.matches[id].player1 then MatchStatus.Player2 else MatchStatus.Player1);
    }
  }

  /** Where `handle` has no objection the corrected views do exactly what the
      written ones do; they differ only where the written ones answer
      `DoneDespiteRefusal`. */
  lemma CheckedViewsAgreeWhenHandleAccepts(s: State, actor: UserId, c: ClubId, id: MatchId, value: string, now: int)
    ensures UpdateMatchOutcome(s, actor, c, id, value, now).outcome != DoneDespiteRefusal ==>
      CheckedUpdateMatchOutcome(s, actor, c, id, value, now).state == UpdateMatchOutcome(s, actor, c, id, value, now).state
    ensures CancelMatch(s, actor, c, id).outcome == Done <==> CheckedCancelMatch(s, actor, c, id).outcome == Done
    ensures CancelMatch(s, actor, c, id).outcome == Done ==>
      CheckedCancelMatch(s, actor, c, id) == CancelMatch(s, actor, c, id)
    ensures ForfeitMatch(s, actor, c, id).outcome == Done ==>
      CheckedForfeitMatch(s, actor, c, id) == ForfeitMatch(s, actor, c, id)
  {
  }

  // 2. `create_superuser` derives the username as `email[:email.find("@")]`;
  //    without an `@` the -1 from `find` cuts off the last character.

  /** As written, an email without `@` loses its last character. */
  lemma SuperuserUsernameDropsLastCharacter()
    ensures SuperuserUsername("admin") == "admi"
  {
    assert Find("admin", '@') == -1 by {
      assert '@' !in "admin";
    }
  }

  /** The text of an email before its first `@`, or all of it when there is none. */
  function LocalPart(email: string): (name: string)
    ensures name <= email && '@' !in name
  {
    var i := Find(email, '@');
    if i < 0 then email else email[..i]
  }

  /** The corrected derivation keeps the longest `@`-free start of the email:
      it stops at an `@` or at the end, and never drops a character. */
  lemma LocalPartIsTheLongestAtFreePrefix(email: string)
    ensures |LocalPart(email)| == |email| || email[|LocalPart(email)|] == '@'
    ensures '@' !in email ==> LocalPart(email) == email
    ensures '@' in email ==> LocalPart(email) == SuperuserUsername(email)
  {
  }

  /** The written derivation misses that property exactly on the non-empty
      emails without `@`. */
  lemma SuperuserUsernameDiffersOnlyWithoutAt(email: string)
    ensures SuperuserUsername(email) != LocalPart(email) <==> email != "" && '@' !in email
  {
  }

  /** `create_superuser` with the corrected derivation: the username is the
      local part of the email, or the whole email when it has no `@`. */
  function CheckedCreateSuperuser(s: State, email: string, password: string, p: Profile,
                                  flags: Flags, normalize: string -> string): (r: Result<(State, UserId)>)
    ensures r.Ok? ==> r.value.1 in r.value.0.users && r.value.0.users[r.value.1].username == LocalPart(email)
    ensures r.Ok? && '@' !in email ==> r.value.0.users[r.value.1].username == email
    ensures '@' in email ==> r == CreateSuperuser(s, email, password, p, flags, normalize)
    ensures r.Err? <==>
      email == "" || password == "" || UsernameTaken(s, LocalPart(email)) || EmailTaken(s, normalize(email))
  {
    LocalPartIsTheLongestAtFreePrefix(email);
    SaveUser(s, email, password, LocalPart(email), p,
             SetDefault(flags.isStaff, true), SetDefault(flags.isSuperuser, true), normalize)
  }
}
