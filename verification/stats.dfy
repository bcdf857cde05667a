/** The match lists and the win, loss and draw counters of a user's own match
    page (`UserMatchesView`, clubs/views/match_views.py) and of a member's
    profile within a club (`ShowUserView`,
    clubs/views/club_views/club_member_views.py). */
module MatchStats {
  import opened Base
  import opened Entities
  import opened Roles
  import opened MatchModel
  import opened ApplicationModel
  import opened Invariants

  /** What a match page shows of a player. */
  datatype Record = Record(
    upcoming: set<MatchId>,
    previous: set<MatchId>,
    wins: nat,
    losses: nat,
    draws: nat)

  /** The matches `u` plays in, in either slot. */
  function Games(ms: map<MatchId, Match>, u: UserId): (ks: set<MatchId>)
    ensures forall k :: k in ks <==> k in ms && (ms[k].player1 == u || ms[k].player2 == u)
  {
    set k | k in ms && (ms[k].player1 == u || ms[k].player2 == u)
  }

  /** The matches of `u` that have status `st`. */
  function GamesWith(ms: map<MatchId, Match>, u: UserId, st: MatchStatus): (ks: set<MatchId>)
    ensures forall k :: k in ks <==> k in Games(ms, u) && ms[k].status == st
  {
    set k | k in Games(ms, u) && ms[k].status == st
  }

  /** The matches with `u` as player 1 and status `st`. */
  function AsPlayer1(ms: map<MatchId, Match>, u: UserId, st: MatchStatus): set<MatchId>
  {
    set k | k in ms && ms[k].player1 == u && ms[k].status == st
  }

  /** The matches with `u` as player 2 and status `st`. */
  function AsPlayer2(ms: map<MatchId, Match>, u: UserId, st: MatchStatus): set<MatchId>
  {
    set k | k in ms && ms[k].player2 == u && ms[k].status == st
  }

  /** The page's counters, each the sum of two queries by slot and status:
      a win is player 1 with `Player1` or player 2 with `Player2`, a loss the
      other way round; draws are the player's drawn matches. The upcoming
      matches are the Pending ones and the previous matches all others. */
  function Tally(ms: map<MatchId, Match>, u: UserId): (r: Record)
    ensures r.upcoming + r.previous == Games(ms, u) && r.upcoming * r.previous == {}
    ensures forall k | k in r.upcoming :: ms[k].status == MatchStatus.Pending
    ensures forall k | k in r.previous :: Decided(ms[k].status)
  {
    Record(
      GamesWith(ms, u, MatchStatus.Pending),
      set k | k in Games(ms, u) && Decided(ms[k].status),
      |AsPlayer1(ms, u, MatchStatus.Player1)| + |AsPlayer2(ms, u, MatchStatus.Player2)|,
      |AsPlayer2(ms, u, MatchStatus.Player1)| + |AsPlayer1(ms, u, MatchStatus.Player2)|,
      |GamesWith(ms, u, Draw)|)
  }

  /** The matches `u` won, read off `Winner`. */
  function Won(ms: map<MatchId, Match>, u: UserId): (ks: set<MatchId>)
    ensures ks <= Games(ms, u)
  {
    set k | k in ms && Winner(ms[k]) == Some(u)
  }

  /** The matches of `u` someone else won. */
  function Lost(ms: map<MatchId, Match>, u: UserId): (ks: set<MatchId>)
    ensures ks <= Games(ms, u)
  {
    set k | k in Games(ms, u) && Winner(ms[k]).Some? && Winner(ms[k]).value != u
  }

  /** No stored match pits a user against themselves. */
  predicate NoSelfPlay(ms: map<MatchId, Match>)
  {
    forall k | k in ms :: ms[k].player1 != ms[k].player2
  }

  lemma DisjointUnionSize<T>(a: set<T>, b: set<T>)
    requires a * b == {}
    ensures |a + b| == |a| + |b|
  {
  }

  /** The wins counter counts exactly the matches `Winner` gives to the player. */
  lemma WinsAreWonGames(ms: map<MatchId, Match>, u: UserId)
    ensures Tally(ms, u).wins == |Won(ms, u)|
  {
    var one := AsPlayer1(ms, u, MatchStatus.Player1);
    var two := AsPlayer2(ms, u, MatchStatus.Player2);
    assert Won(ms, u) == one + two;
    assert one * two == {};
    DisjointUnionSize(one, two);
  }

  /** Between two different players, the losses counter counts exactly the
      player's matches that someone else won. With a self-match the counters
      would book the same match as a win and as a loss. */
  lemma LossesAreLostGames(ms: map<MatchId, Match>, u: UserId)
    requires NoSelfPlay(ms)
    ensures Tally(ms, u).losses == |Lost(ms, u)|
  {
    var one := AsPlayer2(ms, u, MatchStatus.Player1);
    var two := AsPlayer1(ms, u, MatchStatus.Player2);
    assert Lost(ms, u) == one + two;
    assert one * two == {};
    DisjointUnionSize(one, two);
  }

  /** A decided match of the player is won, lost, drawn or cancelled. */
  lemma PreviousGamesSplit(ms: map<MatchId, Match>, u: UserId)
    requires NoSelfPlay(ms)
    ensures Tally(ms, u).previous ==
      Won(ms, u) + Lost(ms, u) + GamesWith(ms, u, Draw) + GamesWith(ms, u, Cancelled)
  {
    var previous := Tally(ms, u).previous;
    var split := Won(ms, u) + Lost(ms, u) + GamesWith(ms, u, Draw) + GamesWith(ms, u, Cancelled);
    forall k | k in previous
      ensures k in split
    {
      if Winner(ms[k]).Some? && Winner(ms[k]).value != u {
        assert k in Lost(ms, u);
      }
    }
  }

  /** Every previous match is a win, a loss, a draw or a cancellation, and
      exactly one of them. */
  lemma PreviousGamesAddUp(ms: map<MatchId, Match>, u: UserId)
    requires NoSelfPlay(ms)
    ensures Tally(ms, u).wins + Tally(ms, u).losses + Tally(ms, u).draws
      + |GamesWith(ms, u, Cancelled)| == |Tally(ms, u).previous|
  {
    WinsAreWonGames(ms, u);
    LossesAreLostGames(ms, u);
    PreviousGamesSplit(ms, u);
    var w, l := Won(ms, u), Lost(ms, u);
    var d, x := GamesWith(ms, u, Draw), GamesWith(ms, u, Cancelled);
    assert w * l == {};
    DisjointUnionSize(w, l);
    assert (w + l) * d == {};
    DisjointUnionSize(w + l, d);
    assert (w + l + d) * x == {};
    DisjointUnionSize(w + l + d, x);
  }

  /** `UserMatchesView` (login required): the user's matches in every club. */
  function UserMatches(s: State, actor: UserId): (r: Record)
    ensures forall k :: k in r.upcoming + r.previous <==>
      k in s.matches && actor in {s.matches[k].player1, s.matches[k].player2}
  {
    Tally(s.matches, actor)
  }

  /** The matches of club `c`. */
  function ClubGames(ms: map<MatchId, Match>, c: ClubId): (cm: map<MatchId, Match>)
    ensures forall k :: k in cm <==> k in ms && ms[k].club == c
    ensures forall k | k in cm :: cm[k] == ms[k]
  {
    map k | k in ms && ms[k].club == c :: ms[k]
  }

  /** `ShowUserView.get` behind the membership gate: the shown member's
      statement (from their Accepted application to the club) and their
      matches in this club. A missing user, membership or Accepted application
      sends the request back to the member list; two Accepted applications
      make `get` raise. */
  function ShowUser(s: State, actor: UserId, c: ClubId, target: UserId): (p: Page<(string, Record)>)
    ensures Admit(s, actor, c, MembershipRequired).Some? ==>
      p == Withheld(Admit(s, actor, c, MembershipRequired).value)
    ensures p.Shown? <==>
      && Admit(s, actor, c, MembershipRequired) == None
      && target in s.users && (target, c) in s.roles && |AcceptedFor(s, target, c)| == 1
    ensures p.Shown? ==> exists a | a in AcceptedFor(s, target, c) :: p.value.0 == s.applications[a].statement
    ensures p.Shown? ==> p.value.1 == Tally(ClubGames(s.matches, c), target)
    ensures p == Withheld(ServerError(MultipleObjectsReturned)) <==>
      && Admit(s, actor, c, MembershipRequired) == None
      && target in s.users && (target, c) in s.roles && |AcceptedFor(s, target, c)| > 1
    ensures Admit(s, actor, c, MembershipRequired) == None && p.Withheld? ==>
      p.reason in {NotFound, ServerError(MultipleObjectsReturned)}
  {
    match Admit(s, actor, c, MembershipRequired)
    case Some(refusal) => Withheld(refusal)
    case None =>
      if target !in s.users || (target, c) !in s.roles then Withheld(NotFound)
      else
        match GetOne(AcceptedFor(s, target, c))
        case Err(e) => if e == DoesNotExist then Withheld(NotFound) else Withheld(ServerError(e))
        case Ok(a) => Shown((s.applications[a].statement, Tally(ClubGames(s.matches, c), target)))
  }

  /** In a good database a member's profile is always shown to a fellow member. */
  lemma ShowUserShowsMembers(s: State, actor: UserId, c: ClubId, target: UserId)
    requires Good(s)
    requires Admit(s, actor, c, MembershipRequired) == None && (target, c) in s.roles
    ensures ShowUser(s, actor, c, target).Shown?
  {
    MemberHasOneAcceptedApplication(s, target, c);
  }

  /** The profile in a club lists the part of the user's own match page that
      belongs to that club, with the same split into upcoming and previous. */
  lemma ProfileIsTheClubPartOfTheMatchPage(s: State, actor: UserId, c: ClubId, target: UserId)
    requires ShowUser(s, actor, c, target).Shown?
    ensures ShowUser(s, actor, c, target).value.1.upcoming ==
      set k | k in UserMatches(s, target).upcoming && s.matches[k].club == c
    ensures ShowUser(s, actor, c, target).value.1.previous ==
      set k | k in UserMatches(s, target).previous && s.matches[k].club == c
  {
  }

  /** In a good database the counters of a page add up to its previous matches. */
  lemma ProfileCountersAddUp(s: State, actor: UserId, c: ClubId, target: UserId)
    requires NoSelfMatch(s)
    requires ShowUser(s, actor, c, target).Shown?
    ensures
      var r := ShowUser(s, actor, c, target).value.1;
      r.wins + r.losses + r.draws + |GamesWith(ClubGames(s.matches, c), target, Cancelled)| == |r.previous|
  {
    PreviousGamesAddUp(ClubGames(s.matches, c), target);
  }
}
