# Chess clubs: the membership workflow, modelled in Dafny

This project models the core of a Django web application for chess clubs:
users apply to clubs, officers accept or reject the applications, members
hold one of three roles (Member, Officer, Owner), officers schedule matches
between members, and outcomes are recorded, cancelled or forfeited.

The database is one immutable record, `Entities.State`. It holds the users,
the clubs, the memberships (a map from `(user, club)` to a role, which makes
the one-membership-per-pair constraint hold by construction), the
applications, the matches and one id counter shared by all tables. Every view that
writes is a pure function from a state, the logged-in user (`actor`), the
route and form arguments and, where the code reads the clock, an integer
`now`. It returns a `Response`: the new state and an `Outcome`. The outcome
is one of:

- `Done`;
- `DoneDespiteRefusal`: a refusal message was queued but the change ran anyway;
- `NoSuchClub`, `Forbidden`, `NotFound`: the access mixins' redirects and the
  lookup misses;
- `Refused`: the row is not in a state the handler acts on;
- `Invalid(problem)`: a form error;
- `ServerError(e)`: an uncaught exception, with the writes made before it kept.

Read-only pages return a `Page`: the data shown, or the outcome that kept
it from showing.

The modules follow the program:

- `Base`: `Option`, `Result`, the persistence errors, and `get` over a set of
  matching rows.
- `Entities`: the rows, the state and the two cascading deletes.
- `Roles`: the role predicates, the rank helpers and the access mixins.
- `Fields`: the field validators, with the username and password patterns
  also checked by a scanning method.
- `ApplicationModel` and `MatchModel`: the guarded `save` of each row type.
- `Invariants`: `Good`, the property every view keeps. It says:
  - every foreign key points at a live row and the counter is ahead of every key;
  - each club has exactly one Owner;
  - each `(user, club)` has at most one open application;
  - a membership exists exactly when an Accepted application backs it;
  - no match pits a user against themselves;
  - club names, usernames and emails are unique.
- `ApplicationViews`, `MembershipViews`, `MatchViews`, `MatchStats`,
  `Accounts`: the views, each with its contract, a partner lemma (an inverse,
  an idempotence, a reference definition) and a proof that it keeps `Good`.
- `Findings`: two defects of the code. Each has a lemma exhibiting it and a
  corrected definition with the property it restores.

The views model the code as written. In particular, the refusals in the
`handle` methods of the match views do not stop the change (see Findings).

## Model

| member | source | states |
|---|---|---|
| Base.GetOne | clubs/views/club_views/club_member_views.py:101 | `get` succeeds exactly when one row matches; no row is `DoesNotExist`, several are `MultipleObjectsReturned` |
| Entities.DeleteClubRows | clubs/views/home_views.py:95-101 | deleting a club removes it and exactly the memberships, applications and matches that refer to it; every other row is kept unchanged |
| Entities.DeleteUserRows | clubs/views/account_views.py:116-120 | deleting a user removes them and exactly their memberships, their applications and the matches they play in either slot; every other row is kept |
| Roles.ExactRolesPartitionMembership | clubs/models/user_membership_models.py:72-82 | for one user and club, at most one of is_member_of, is_officer_of and is_owner_of holds, and one holds exactly when a membership exists |
| Roles.SomewhereMeansSomeClub | clubs/models/user_membership_models.py:60-70 | is_member, is_officer and is_owner hold exactly when some club gives the user that exact role |
| Roles.RanksAreThresholds | clubs/views/helpers.py:101-108 | member rank means any membership, officer rank means Officer or Owner, owner rank means Owner; each rank implies the one below |
| Roles.Admit | clubs/views/helpers.py:37-81 | a mixin lets the handler run exactly when the club exists and the actor's role reaches the gate's level; a missing club redirects first, and a low role is Forbidden |
| Roles.GatesAreNested | clubs/views/helpers.py:53-81 | whoever passes the owner gate passes the officer gate, and whoever passes that passes the membership gate |
| Roles.GetOwner | clubs/models/user_membership_models.py:104-106 | `get_owner` succeeds exactly when the club has one Owner, and returns that Owner |
| Roles.ClubsOf | clubs/models/user_membership_models.py:84-87 | `clubs()` is exactly the clubs the user has a membership in |
| Roles.CreateMembership | clubs/models/user_membership_models.py:141-149 | a second membership for the same user and club is refused with an integrity error; otherwise the new row has the given role and every other row is unchanged |
| Fields.MatchUsername | clubs/models/user_membership_models.py:11-16 | the username check accepts exactly at most 30 characters of which at least three word characters run to the end, or to just before a final newline |
| Fields.MatchPassword | clubs/forms/account_forms.py:19-26 | the password pattern accepts exactly one line, allowing a final newline, holding an upper-case letter, a lower-case letter and a digit |
| Fields.PasswordFormNeedsPatternOnlyOnPasswords | clubs/forms/account_forms.py:27-45 | the password form is valid exactly when both passwords match the pattern and the confirmation equals the new password; the confirmation has no pattern of its own |
| ApplicationModel.NewApplication | clubs/models/application_models.py:24-37 | a new application is Pending and carries the given user, club and statement |
| ApplicationModel.InsertApplication | clubs/models/application_models.py:53-63 | saving a new application fails, and writes nothing, exactly when it is Pending and the user already has a Pending or Accepted application to that club; otherwise the row is stored at a fresh id |
| ApplicationModel.OnlyOpenSamePairBlocks | clubs/models/application_models.py:69-77 | a Rejected application, or one of another user or to another club, never changes whether a new application can be saved |
| ApplicationModel.AcceptedDuplicatesCoexist | clubs/models/application_models.py:59-63 | a second Accepted application of the same user to the same club is saved next to the first, because only Pending saves are checked |
| Invariants.MemberHasOneAcceptedApplication | clubs/views/home_views.py:48 | in a good database every member has exactly one Accepted application to the club, so the `get` of it succeeds |
| Invariants.PendingApplicantIsNoMember | clubs/views/club_views/club_application_views.py:44 | in a good database the user of a Pending application has no membership of that club |
| Invariants.GetOwnerSucceeds | clubs/models/user_membership_models.py:104-106 | in a good database `get_owner` never raises for an existing club |
| ApplicationViews.NewApplication | clubs/views/application_views.py:30-46 | an open application to a club of the posted name refuses the request; otherwise a blank or unknown name or a bad statement is a form error, two clubs of that name raise, and else one Pending application is filed; nothing is written except on success |
| ApplicationViews.SecondApplicationRefused | clubs/views/application_views.py:34-39 | applying again to the same club while the first application is pending is refused |
| ApplicationViews.UniqueNamesMeanOneClub | clubs/models/user_membership_models.py:96 | with unique club names, a name picks out at most one club |
| ApplicationViews.ApplicationList | clubs/views/application_views.py:58-60 | the list is exactly the logged-in user's applications |
| ApplicationViews.CancelApplication | clubs/views/application_views.py:79-92 | an application is deleted exactly when it is the actor's own and Pending; a decided one is refused and a missing or foreign one is not found, both without change |
| ApplicationViews.ApplicationListsSplitTheTable | clubs/views/application_views.py:58-60 | the lists of different users never share an application, and every application is on its applicant's list |
| ApplicationViews.ListFollowsCancelAndNewApplication | clubs/views/application_views.py:79-92 | a cancel takes exactly that application off the user's list, and a new application adds exactly the new row to it |
| ApplicationViews.CancelUndoesNewApplication | clubs/views/application_views.py:79-84 | cancelling a just-filed application gives back the earlier database, with only the id counter moved on |
| ApplicationViews.AcceptApplication | clubs/views/club_views/club_application_views.py:22-47 | an officer of the club accepts a Pending application of that club: it becomes Accepted and its user a Member; a decided one is refused and a missing one not found, without change; an existing membership makes the insert raise after the status was saved |
| ApplicationViews.RejectApplication | clubs/views/club_views/club_application_views.py:49-59 | an officer of the club rejects a Pending application of that club and creates no membership; anything else changes nothing |
| ApplicationViews.DecisionsAreFinal | clubs/views/club_views/club_application_views.py:41-59 | an accepted or rejected application can be neither accepted nor rejected again |
| ApplicationViews.ClubApplications | clubs/views/club_views/club_application_views.py:10-20 | the pending list is shown exactly to officers and the owner of an existing club |
| ApplicationViews.ClubApplicationsAreTheActionableOnes | clubs/views/club_views/club_application_views.py:15-20 | an id is on the list exactly when the same officer could reject it, and exactly when accepting it would get past the lookup and the status check |
| ApplicationViews.AcceptNeverRaises | clubs/views/club_views/club_application_views.py:44 | in a good database the membership insert of an acceptance never raises |
| ApplicationViews.NewApplicationPreservesGood | clubs/views/application_views.py:40-43 | filing an application keeps a good database good |
| ApplicationViews.CancelPreservesGood | clubs/views/application_views.py:82-84 | cancelling an application keeps a good database good |
| ApplicationViews.AcceptPreservesGood | clubs/views/club_views/club_application_views.py:39-45 | accepting keeps a good database good, with every membership backed by one Accepted application |
| ApplicationViews.RejectPreservesGood | clubs/views/club_views/club_application_views.py:52-57 | rejecting keeps a good database good |
| Roles.MemberCount | clubs/models/user_membership_models.py:108-110 | the member count is zero exactly when no membership row names the club, and never exceeds the number of membership rows |
| MembershipViews.WithdrawLowersMemberCount | clubs/models/user_membership_models.py:108-110 | deleting one membership row lowers the club's member count by one |
| MembershipViews.Promote | clubs/views/club_views/club_member_views.py:55-79 | an officer or the owner turns exactly a Member target into an Officer and changes no other row; a missing user or membership is not found, and an Officer or Owner target is left alone |
| MembershipViews.Demote | clubs/views/club_views/club_member_views.py:81-91 | only the owner acts, and only an Officer becomes a Member; any other target changes nothing |
| MembershipViews.OwnerCannotDemoteThemselves | clubs/views/club_views/club_member_views.py:84-91 | the owner demoting themselves changes nothing |
| MembershipViews.DemoteUndoesPromote | clubs/views/club_views/club_member_views.py:72-91 | the owner's demotion of a just-promoted member gives back the earlier database |
| MembershipViews.PromoteUndoesDemote | clubs/views/club_views/club_member_views.py:72-91 | the owner's promotion of a just-demoted officer gives back the earlier database |
| MembershipViews.PromotePreservesGood | clubs/views/club_views/club_member_views.py:74-76 | promotion keeps a good database good, one owner per club included |
| MembershipViews.DemotePreservesGood | clubs/views/club_views/club_member_views.py:86-88 | demotion keeps a good database good, one owner per club included |
| MembershipViews.RemoveMember | clubs/views/club_views/club_member_views.py:93-107 | an officer removes Members, the owner also Officers, and the owner is never removed; a removal rejects the target's Accepted application and deletes exactly one membership; the `get` of the application raises unless there is exactly one |
| MembershipViews.RemoveMemberNeverRaises | clubs/views/club_views/club_member_views.py:101 | in a good database a removal never raises |
| MembershipViews.RemoveMemberPreservesGood | clubs/views/club_views/club_member_views.py:98-105 | a removal keeps a good database good |
| MembershipViews.TransferOwnership | clubs/views/club_views/club_member_views.py:139-157 | the owner hands ownership to another member of the club and becomes an Officer; a self-transfer or a non-member target changes nothing |
| MembershipViews.HandOverLeavesOneOwner | clubs/views/club_views/club_member_views.py:153-156 | after a transfer from the only owner the heir is the club's only owner and every other club keeps its owners |
| MembershipViews.TransferPreservesGood | clubs/views/club_views/club_member_views.py:139-157 | a transfer keeps a good database good |
| MembershipViews.TransferBackRestores | clubs/views/club_views/club_member_views.py:149-156 | transferring back to the former owner restores the earlier database |
| MembershipViews.LeaveClub | clubs/views/home_views.py:40-53 | a Member or Officer leaves: their Accepted application becomes Rejected and exactly their membership is deleted; the owner may not leave and nothing changes |
| MembershipViews.LeaveClubNeverRaises | clubs/views/home_views.py:48 | in a good database leaving never raises |
| MembershipViews.LeaveClubPreservesGood | clubs/views/home_views.py:44-51 | leaving keeps a good database good |
| MembershipViews.CreateClub | clubs/views/home_views.py:65-79 | an invalid form or a taken name writes nothing; otherwise the club is created and its creator gets an Accepted application and the Owner membership |
| MembershipViews.CreateClubPreservesGood | clubs/views/home_views.py:69-75 | in a good database a valid form with a free name always creates the club, and the database stays good |
| MembershipViews.DeleteClub | clubs/views/home_views.py:87-101 | only the owner deletes the club; its memberships, applications and matches go with it, and every other row stays |
| MembershipViews.DeleteClubPreservesGood | clubs/views/home_views.py:95-101 | deleting a club keeps a good database good |
| MembershipViews.ClubList | clubs/views/home_views.py:24-31 | the user's clubs are exactly those they hold a membership in; they and the other clubs split all clubs; the owned clubs are the user's clubs where their role is Owner |
| MatchModel.IsOverdue | clubs/models/match_models.py:76-80 | a match is overdue from its scheduled time on, whatever its status |
| MatchModel.OverdueOnceStaysOverdue | clubs/models/match_models.py:76-80 | once overdue a match stays overdue as the clock moves on |
| MatchModel.MembersFromSameClub | clubs/models/match_models.py:92-98 | the check holds exactly when both players hold a membership of the match's club, of any role |
| MatchModel.IsADuplicate | clubs/models/match_models.py:100-109 | a match is a duplicate exactly when a stored row equals it with its status set to Pending |
| MatchModel.InClubMeansMembership | clubs/models/match_models.py:96-98 | `is_in_club` holds exactly when the player has a membership of any role in the club |
| MatchModel.InsertMatch | clubs/models/match_models.py:82-86 | saving a Pending match succeeds exactly when the players differ, both are in the club and no identical Pending match exists; a decided match is saved unchecked; a refused save writes nothing |
| MatchModel.UpdateMatch | clubs/models/match_models.py:82-86 | re-saving a stored match is refused exactly when it is Pending and its players are equal, not both in the club, or duplicated by a stored Pending match (itself included); otherwise exactly that row is written |
| MatchModel.ResavingAPendingMatchFails | clubs/models/match_models.py:100-109 | the duplicate query includes the row being saved, so a stored Pending match cannot be saved again unchanged |
| MatchModel.Winner | clubs/models/match_models.py:58-66 | Player1 and Player2 name the winning slot; a Pending, drawn or cancelled match has no winner |
| MatchModel.DuplicateCheckIsOrderSensitive | clubs/models/match_models.py:100-109 | the same fixture with the players swapped is not a duplicate and is saved |
| MatchViews.CheckMatchForm | clubs/forms/match_froms.py:38-84 | the form fails on bad fields, then on identical players, then on a match of either player at that exact time, then on a time not after now; it passes exactly when all four checks pass |
| MatchViews.AcceptedFormSaves | clubs/forms/match_froms.py:26-36 | a form that passed its checks never trips the save guard and stores one Pending match at the next id |
| MatchViews.CreateMatch | clubs/views/club_views/club_match_views.py:26-35 | only an officer creates; a valid form adds exactly one Pending match of the route club between two different players; an invalid form or a low role writes nothing |
| MatchViews.CreateMatchTwiceConflicts | clubs/forms/match_froms.py:75-84 | posting the same form again right after it succeeded is a schedule conflict |
| MatchViews.ConflictIgnoresClubAndStatus | clubs/forms/match_froms.py:80-83 | any stored match that shares a player and the time blocks the form, whatever its club and status |
| MatchViews.ParseOutcome | clubs/forms/match_froms.py:86-89 | the outcome form never yields Pending |
| MatchViews.StatusNamesAreDistinct | clubs/models/match_models.py:38-42 | the five statuses are stored under five different names |
| MatchViews.ParseOutcomeReadsStatusName | clubs/forms/match_froms.py:88-89 | every status but Pending is accepted under its stored name, and Pending is not |
| MatchViews.StatusNameWritesParseOutcome | clubs/forms/match_froms.py:88-89 | an accepted value is exactly the stored name of the status it yields |
| MatchViews.SetStatus | clubs/forms/match_froms.py:96-102 | saving an outcome changes only that match's status; the match count and every other match stay |
| MatchViews.UpdateMatchOutcome | clubs/views/club_views/club_match_views.py:48-73 | an officer's valid outcome for a match of the route club is written even when `handle` objects to a match that is not overdue or already decided; a missing or other-club match is not found, an invalid value is a form error, both without change |
| MatchViews.UpdateStoresPostedStatus | clubs/views/club_views/club_match_views.py:64-70 | after an update the match has the status whose name was posted and every other match is unchanged |
| MatchViews.CancelMatch | clubs/views/club_views/club_match_views.py:93-115 | an officer's cancel sets a match of the route club to Cancelled and keeps the row, even when `handle` objects that it is decided |
| MatchViews.CancelIsIdempotent | clubs/views/club_views/club_match_views.py:112-115 | cancelling again changes nothing more |
| MatchViews.ForfeitMatch | clubs/views/match_views.py:27-50 | player 1 forfeiting records a Player2 win, player 2 forfeiting a Player1 win, anyone else is refused; no time condition applies and a decided match is overwritten |
| MatchViews.ForfeitHandsTheWinToTheOpponent | clubs/views/match_views.py:38-47 | between two different players the forfeiting player is never the winner and the opponent is |
| MatchViews.CreateMatchPreservesGood | clubs/views/club_views/club_match_views.py:30-31 | creating a match keeps a good database good |
| MatchViews.UpdateMatchOutcomePreservesGood | clubs/views/club_views/club_match_views.py:64-70 | an outcome update keeps a good database good |
| MatchViews.CancelMatchPreservesGood | clubs/views/club_views/club_match_views.py:112-115 | a cancel keeps a good database good |
| MatchViews.ForfeitMatchPreservesGood | clubs/views/match_views.py:38-50 | a forfeit keeps a good database good |
| MatchStats.Tally | clubs/views/match_views.py:16-23 | upcoming and previous split the user's matches, with upcoming exactly the Pending ones |
| MatchStats.WinsAreWonGames | clubs/views/match_views.py:19-20 | the wins counter counts exactly the matches whose winner is the user |
| MatchStats.LossesAreLostGames | clubs/views/match_views.py:21-22 | between different players the losses counter counts exactly the user's matches won by someone else |
| MatchStats.PreviousGamesSplit | clubs/views/match_views.py:18-23 | every previous match is won, lost, drawn or cancelled |
| MatchStats.PreviousGamesAddUp | clubs/views/match_views.py:16-23 | wins, losses, draws and cancellations add up to the number of previous matches |
| MatchStats.UserMatches | clubs/views/match_views.py:10-24 | the match page lists exactly the matches the user plays in either slot, in every club |
| MatchStats.ClubGames | clubs/views/club_views/club_member_views.py:35 | the club's matches are exactly the stored matches of that club |
| MatchStats.ShowUser | clubs/views/club_views/club_member_views.py:21-53 | a fellow member sees the target's statement from their Accepted application and their matches in the club; a missing user, membership or application is not found and two Accepted applications raise |
| MatchStats.ShowUserShowsMembers | clubs/views/club_views/club_member_views.py:26-33 | in a good database every member's profile is shown to a fellow member |
| MatchStats.ProfileIsTheClubPartOfTheMatchPage | clubs/views/club_views/club_member_views.py:35-47 | the profile lists the part of the user's own match page that belongs to the club |
| MatchStats.ProfileCountersAddUp | clubs/views/club_views/club_member_views.py:48-50 | on a profile, wins, losses, draws and cancellations add up to the previous matches |
| Accounts.Find | clubs/models/helpers.py:18 | `find` gives the first index of the character, or -1 when it is absent |
| Accounts.SliceTo | clubs/models/helpers.py:18 | a slice to n is a prefix of length n, counted from the end when n is negative and clamped to the text |
| Accounts.SuperuserUsername | clubs/models/helpers.py:18 | the derived username is the text before the first `@`; without one it is the email minus its last character |
| Accounts.SaveUser | clubs/models/helpers.py:20-28 | an empty email or password raises a value error before anything is written; a taken username or email is an integrity error; otherwise the row holds the normalised email, the hashed password and the given fields |
| Accounts.CreateUser | clubs/models/helpers.py:8-12 | a plain user's staff and superuser flags default to false; the user is created exactly when email and password are given and the username and email are free |
| Accounts.CreateSuperuser | clubs/models/helpers.py:14-18 | a superuser's flags default to true and the username is derived from the email |
| Accounts.FlagDefaults | clubs/models/helpers.py:10-17 | with no flags a user is neither staff nor superuser and a superuser is both; given flags are never overridden |
| Accounts.SaveUserPreservesGood | clubs/models/helpers.py:20-28 | creating a user keeps a good database good |
| Accounts.ChangePassword | clubs/views/account_views.py:34-54 | the password changes exactly when the form is valid and the current password checks out; a wrong current password is a form error; nothing changes otherwise |
| Accounts.ChangePasswordBackRestores | clubs/views/account_views.py:41-44 | with a check that opens a credential only with the password it was made from, after a change the old password stops working unless it was reused, and changing back is accepted and leaves every row as before except the stored credential, which the old password opens again |
| Accounts.ChangePasswordPreservesGood | clubs/views/account_views.py:43-44 | a password change keeps a good database good |
| Accounts.Edited | clubs/forms/account_forms.py:7-14 | the profile form does not touch the password or the flags |
| Accounts.UpdateProfile | clubs/views/account_views.py:19-29 | the profile is saved exactly when the posted fields pass the field validators and no other user has the username or the normalised email; the saved email is the normalised one; otherwise nothing changes |
| Accounts.UpdateProfileRefusesAnotherUsersEmail | clubs/views/account_views.py:23-25 | posting an email that normalises to another user's email is refused, and nothing is written |
| Accounts.UpdateProfileIsIdempotent | clubs/views/account_views.py:21-26 | posting the same profile again is accepted and changes nothing more |
| Accounts.UpdateProfilePreservesGood | clubs/views/account_views.py:23-26 | a profile edit keeps a good database good |
| Accounts.CloseAccount | clubs/views/account_views.py:100-120 | an owner of any club is refused and nothing is deleted; otherwise the user found by username is deleted with everything that refers to them |
| Accounts.CloseAccountPreservesGood | clubs/views/account_views.py:105-120 | in a good database a non-owner's account is closed, one user fewer, and no club loses its owner |
| Accounts.DeletingTheNewUserUndoesRegister | clubs/views/account_views.py:118-119 | deleting a user nothing refers to yet gives back the database they were added to |
| Accounts.CloseAccountUndoesCreateUser | clubs/views/account_views.py:116-120 | closing the account of a user just created gives back the earlier database, with the counter moved on |
| Findings.CancelOverwritesADecidedMatch | clubs/views/helpers.py:86-96 | as written, cancelling a match player 1 won sets it to Cancelled |
| Findings.ForfeitFlipsADecidedMatch | clubs/views/match_views.py:32-47 | as written, the winner forfeiting a match they won hands the win to the loser |
| Findings.UpdateRecordsAFutureMatch | clubs/views/club_views/club_match_views.py:53-70 | as written, an officer records a result for a match that is not yet due |
| Findings.CheckedUpdateMatchOutcome | clubs/views/club_views/club_match_views.py:53-57 | with the redirect honoured, an update of a match that is not overdue or already decided is refused and changes nothing |
| Findings.CheckedCancelMatch | clubs/views/club_views/club_match_views.py:98-102 | with the redirect honoured, cancelling a decided match is refused and changes nothing |
| Findings.CheckedForfeitMatch | clubs/views/match_views.py:32-36 | with the redirect honoured, forfeiting a decided match is refused; a forfeit that runs leaves a winner |
| Findings.DecidedMatchesAreTerminal | clubs/views/helpers.py:91 | with the redirect honoured, no update, cancel or forfeit changes a decided match |
| Findings.CheckedUpdateMatchOutcomePreservesGood | clubs/views/club_views/club_match_views.py:64-70 | the corrected update keeps a good database good |
| Findings.CheckedCancelMatchPreservesGood | clubs/views/club_views/club_match_views.py:112-115 | the corrected cancel keeps a good database good |
| Findings.CheckedForfeitMatchPreservesGood | clubs/views/match_views.py:38-50 | the corrected forfeit keeps a good database good |
| Findings.CheckedViewsAgreeWhenHandleAccepts | clubs/views/helpers.py:86-99 | where `handle` does not object, the corrected views do what the written ones do |
| Findings.SuperuserUsernameDropsLastCharacter | clubs/models/helpers.py:18 | as written, the email `admin` gives the username `admi` |
| Findings.LocalPart | clubs/models/helpers.py:18 | the corrected username is a prefix of the email without `@` |
| Findings.LocalPartIsTheLongestAtFreePrefix | clubs/models/helpers.py:18 | the corrected username stops at the first `@` or at the end, and agrees with the written one whenever there is an `@` |
| Findings.SuperuserUsernameDiffersOnlyWithoutAt | clubs/models/helpers.py:18 | the written and corrected usernames differ exactly on non-empty emails without `@` |
| Findings.CheckedCreateSuperuser | clubs/models/helpers.py:14-18 | with the corrected derivation a superuser's username is the text before the first `@`, or the whole email when it has none; with an `@` it creates exactly what the written manager creates |

## Left out

- Authentication and sessions: the logged-in user is the `actor` parameter. The views that need a login take an `actor` that is in the user table (a `requires`).
- Password hashing and checking: `set_password` is the abstract `HashOf`, and `check_password` is a caller-given oracle. `normalize_email` is a caller-given function; it is applied when a user is created and, as `AbstractUser.clean` does during model validation, when the profile form is validated, before its unique check and its save.
- Accounts.ChangePasswordBackRestores: hashing is modelled as unsalted, so the model stores the same credential each time a password is set, where a real salted hash would store a different one. The lemma therefore promises only that the restored row differs from the original in the credential alone, and that the old password opens it. It does not promise the original credential back.
- Ids: one counter (`State.nextId`) numbers users, clubs, applications and matches, where the database keeps one sequence per table. Ids are opaque, so no behaviour depends on this; "the counter moved on" in the rows above refers to this shared counter.
- Django's `EmailField` validator is the abstract `emailValid` predicate.
- Templates, flash messages, redirect targets and the permission flags put into page contexts are not modelled. Every GET that only renders a form or a confirmation page is left out; this includes the GET of the transfer view.
- The email sent when a club is deleted, and the Gravatar URLs.
- The wall clock. `now` is an integer. `Match.is_overdue` compares the formatted current time with `str(date_time)` as strings; the model compares numbers.
- Form cleaning that strips whitespace, and the parsing of posted ids and datetimes. Fields arrive as the cleaned values; an unparsable player or datetime is an absent one.
- Python's `is` on the two players in `Match.save` is modelled as equality of user ids. In Python it holds only when one object fills both slots. No reachable outcome depends on the difference. Pending matches are created in two places, and both use two different players. `CreateMatchForm` has already refused equal players with `==` (clubs/forms/match_froms.py:45-47 and 59-61). The seeding command draws the second player with `.exclude(user=user)` (clubs/management/commands/seed.py:132, 136, 151 and 155).
- `\w` is read as ASCII word characters only.
- Transactions: each write of a request happens in order, and an exception keeps the writes made before it (`ServerError`). The two saves of a transfer are one step.
- Queryset ordering; query results are sets.
- `create_superuser` with a caller-given `username` raises a `TypeError` for the duplicate keyword; the model has no username argument there. An absent password is modelled as the empty one; both raise the same `ValueError`.
- The invalid-date branch of `CreateMatchForm.is_valid` evaluates a bare `False` at clubs/forms/match_froms.py:53 instead of returning it. Control then reaches the `return False` at line 57, so the form is invalid, which is what the model says.
- `ForfeitMatchView` allows POST but defines no `post`, so Django answers 405; only the GET is modelled.
- `MatchViews.UpdateMatchOutcome`, `MatchViews.CancelMatch` and `MatchViews.ForfeitMatch` model the written code, in which `handle` does not stop the change. The corrected views are in `Findings`, with their own proofs that they keep the database good.
- `Accounts.CreateSuperuser` models the written username derivation; the corrected manager is `Findings.CheckedCreateSuperuser`.
- Seeding commands, the admin site, URL routing, the superseded migration, the password-reset and log-in views, the members list and the club home page.

## Findings

| source | as written | input that shows it | evidently intended | confidence | as-written member | corrected member |
|---|---|---|---|---|---|---|
| clubs/views/helpers.py:91 | `dispatch` calls `handle` and drops the redirect it returns, so the change runs after the "already has a result" or "not played yet" message | cancel, forfeit or update a match whose status is `Player1` (or update one not yet due): the status is overwritten | a decided match is final and a future match gets no result | high, not executed | Findings.CancelOverwritesADecidedMatch | Findings.DecidedMatchesAreTerminal |
| clubs/models/helpers.py:18 | `email[:email.find("@")]` | `create_superuser("admin", ...)` gives the username `admi` | the whole email when it has no `@` | medium, not executed | Findings.SuperuserUsernameDropsLastCharacter | Findings.CheckedCreateSuperuser |
