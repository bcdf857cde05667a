/** User accounts: `UserManager` (clubs/models/helpers.py) creating users and
    superusers, and the account views (clubs/views/account_views.py) that edit
    the profile through `UserForm`, change the password through `PasswordForm`
    (clubs/forms/account_forms.py) and close the account. */
module Accounts {
  import opened Base
  import opened Entities
  import opened Roles
  import opened Fields
  import opened Invariants

  /** Python's `str.find` for one character: the first index holding `ch`, or -1. */
  function Find(s: string, ch: char): (i: int)
    ensures -1 <= i < |s|
    ensures i == -1 <==> ch !in s
    ensures i >= 0 ==> s[i] == ch && ch !in s[..i]
  {
    if |s| == 0 then -1
    else if s[0] == ch then 0
    else
      var k := Find(s[1..], ch);
      if k == -1 then -1
      else
        assert s[..k + 1] == [s[0]] + s[1..][..k];
        k + 1
  }

  /** Python's `s[:n]`: a negative `n` counts from the end, and both ends are
      clamped to the text. */
  function SliceTo(s: string, n: int): (p: string)
    ensures p <= s
    ensures 0 <= n <= |s| ==> |p| == n
    ensures n < 0 ==> |p| == if |s| + n >= 0 then |s| + n else 0
    ensures n > |s| ==> p == s
  {
    if n >= 0 then (if n <= |s| then s[..n] else s)
    else if |s| + n >= 0 then s[..|s| + n]
    else []
  }

  /** `email[:email.find("@")]`, the username `create_superuser` derives. With
      an `@` it is the text before the first one; without, `find` gives -1 and
      the slice drops the last character. */
  function SuperuserUsername(email: string): (name: string)
    ensures '@' in email ==> name + "@" <= email && '@' !in name
    ensures '@' !in email && email != "" ==> name == email[..|email| - 1]
    ensures email == "" ==> name == ""
  {
    SliceTo(email, Find(email, '@'))
  }

  /** The keyword arguments a caller passes besides the username and the flags. */
  datatype Profile = Profile(firstName: string, lastName: string, bio: string, experienceLevel: string)

  /** `is_staff` and `is_superuser` as the caller passed them, `None` when absent. */
  datatype Flags = Flags(isStaff: Option<bool>, isSuperuser: Option<bool>)

  /** `dict.setdefault`: a value the caller gave stays, otherwise the default. */
  function SetDefault(given: Option<bool>, default: bool): (b: bool)
    ensures given.Some? ==> b == given.value
    ensures given.None? ==> b == default
  {
    match given
    case Some(v) => v
    case None => default
  }

  predicate UsernameTaken(s: State, name: string)
  {
    exists v | v in s.users :: s.users[v].username == name
  }

  predicate EmailTaken(s: State, email: string)
  {
    exists v | v in s.users :: s.users[v].email == email
  }

  /** The write of a new user: the row at the next id. */
  function Register(s: State, u: User): (t: State)
    ensures t.users == s.users[s.nextId := u] && t.nextId == s.nextId + 1
    ensures t == s.(users := t.users, nextId := t.nextId)
  {
    s.(users := s.users[s.nextId := u], nextId := s.nextId + 1)
  }

  /** `UserManager._create_user`: an empty email or password raises
      `ValueError` before anything is written; otherwise the email is
      normalised (by the given function), the password is stored hashed and
      the row is saved, which the unique username and email columns can
      refuse. An absent password is the empty one here: both raise. */
  function SaveUser(s: State, email: string, password: string, username: string, p: Profile,
                    staff: bool, superuser: bool, normalize: string -> string): (r: Result<(State, UserId)>)
    ensures r == Err(ValueError) <==> email == "" || password == ""
    ensures r == Err(IntegrityError) <==>
      email != "" && password != "" && (UsernameTaken(s, username) || EmailTaken(s, normalize(email)))
    ensures r.Ok? ==> r.value.1 == s.nextId && s.nextId in r.value.0.users
    ensures r.Ok? ==> r.value.0 == Register(s, r.value.0.users[s.nextId])
    ensures r.Ok? ==>
      var u := r.value.0.users[s.nextId];
      && u.email == normalize(email) && u.credential == HashOf(password) && u.username == username
      && u.firstName == p.firstName && u.lastName == p.lastName && u.bio == p.bio
      && u.experienceLevel == p.experienceLevel && u.isStaff == staff && u.isSuperuser == superuser
  {
    if email == "" || password == "" then Err(ValueError)
    else
      var address := normalize(email);
      if UsernameTaken(s, username) || EmailTaken(s, address) then Err(IntegrityError)
      else
        var u := User(username, p.firstName, p.lastName, address, p.bio, p.experienceLevel,
                      HashOf(password), staff, superuser);
        Ok((Register(s, u), s.nextId))
  }

  /** `UserManager.create_user`: staff and superuser flags default to false. */
  function CreateUser(s: State, email: string, password: string, username: string, p: Profile,
                      flags: Flags, normalize: string -> string): (r: Result<(State, UserId)>)
    ensures r.Ok? ==> r.value.1 in r.value.0.users
    ensures r.Ok? ==> r.value.0.users[r.value.1].isStaff == SetDefault(flags.isStaff, false)
    ensures r.Ok? ==> r.value.0.users[r.value.1].isSuperuser == SetDefault(flags.isSuperuser, false)
    ensures r.Ok? ==> r.value.0.users[r.value.1].username == username
    ensures r.Err? <==> email == "" || password == "" || UsernameTaken(s, username) || EmailTaken(s, normalize(email))
  {
    SaveUser(s, email, password, username, p,
             SetDefault(flags.isStaff, false), SetDefault(flags.isSuperuser, false), normalize)
  }

  /** `UserManager.create_superuser`: the flags default to true and the
      username is derived from the email. */
  function CreateSuperuser(s: State, email: string, password: string, p: Profile,
                           flags: Flags, normalize: string -> string): (r: Result<(State, UserId)>)
    ensures r.Ok? ==> r.value.1 in r.value.0.users
    ensures r.Ok? ==> r.value.0.users[r.value.1].isStaff == SetDefault(flags.isStaff, true)
    ensures r.Ok? ==> r.value.0.users[r.value.1].isSuperuser == SetDefault(flags.isSuperuser, true)
    ensures r.Ok? ==> r.value.0.users[r.value.1].username == SuperuserUsername(email)
    ensures r.Err? <==>
      email == "" || password == "" || UsernameTaken(s, SuperuserUsername(email)) || EmailTaken(s, normalize(email))
  {
    SaveUser(s, email, password, SuperuserUsername(email), p,
             SetDefault(flags.isStaff, true), SetDefault(flags.isSuperuser, true), normalize)
  }

  /** With no flags given, a plain user is neither staff nor superuser and a
      superuser is both; given flags are never overridden. */
  lemma FlagDefaults(s: State, email: string, password: string, username: string, p: Profile,
                     flags: Flags, normalize: string -> string)
    ensures CreateUser(s, email, password, username, p, Flags(None, None), normalize).Ok? ==>
      var r := CreateUser(s, email, password, username, p, Flags(None, None), normalize);
      !r.value.0.users[r.value.1].isStaff && !r.value.0.users[r.value.1].isSuperuser
    ensures CreateSuperuser(s, email, password, p, Flags(None, None), normalize).Ok? ==>
      var r := CreateSuperuser(s, email, password, p, Flags(None, None), normalize);
      r.value.0.users[r.value.1].isStaff && r.value.0.users[r.value.1].isSuperuser
    ensures flags.isStaff.Some? && CreateSuperuser(s, email, password, p, flags, normalize).Ok? ==>
      var r := CreateSuperuser(s, email, password, p, flags, normalize);
      r.value.0.users[r.value.1].isStaff == flags.isStaff.value
    ensures flags.isSuperuser.Some? && CreateUser(s, email, password, username, p, flags, normalize).Ok? ==>
      var r := CreateUser(s, email, password, username, p, flags, normalize);
      r.value.0.users[r.value.1].isSuperuser == flags.isSuperuser.value
  {
  }

  lemma RegisterKeepsCounterAndReferences(s: State, u: User)
    requires CounterAhead(s) && RowsReferToLiveRows(s)
    ensures CounterAhead(Register(s, u)) && RowsReferToLiveRows(Register(s, u))
  {
  }

  lemma RegisterKeepsUniqueColumns(s: State, u: User)
    requires UniqueColumns(s) && CounterAhead(s)
    requires !UsernameTaken(s, u.username) && !EmailTaken(s, u.email)
    ensures UniqueColumns(Register(s, u))
  {
    var t := Register(s, u);
    forall v, w | v in t.users && w in t.users && t.users[v].username == t.users[w].username
      ensures v == w
    {
      if v != s.nextId && w != s.nextId {
        assert t.users[v] == s.users[v] && t.users[w] == s.users[w];
      }
    }
    forall v, w | v in t.users && w in t.users && t.users[v].email == t.users[w].email
      ensures v == w
    {
      if v != s.nextId && w != s.nextId {
        assert t.users[v] == s.users[v] && t.users[w] == s.users[w];
      }
    }
  }

  lemma RegisterKeepsGood(s: State, u: User)
    requires Good(s) && !UsernameTaken(s, u.username) && !EmailTaken(s, u.email)
    ensures Good(Register(s, u))
  {
    var t := Register(s, u);
    RegisterKeepsCounterAndReferences(s, u);
    RegisterKeepsUniqueColumns(s, u);
    MatchFreeWriteKeepsTheRest(s, t);
  }

  /** A write that leaves roles, applications and matches alone keeps the
      facts about them. */
  lemma MatchFreeWriteKeepsTheRest(s: State, t: State)
    requires OneOwnerPerClub(s) && AtMostOneOpenApplication(s)
    requires MembershipsMatchAcceptance(s) && NoSelfMatch(s)
    requires t.roles == s.roles && t.clubs == s.clubs && t.applications == s.applications && t.matches == s.matches
    ensures OneOwnerPerClub(t) && AtMostOneOpenApplication(t)
    ensures MembershipsMatchAcceptance(t) && NoSelfMatch(t)
  {
    SameRolesSameOwners(s, t);
    RoleChangeKeepsAcceptance(s, t);
  }

  /** Creating a user keeps a good database good. */
  lemma SaveUserPreservesGood(s: State, email: string, password: string, username: string, p: Profile,
                              staff: bool, superuser: bool, normalize: string -> string)
    requires Good(s)
    requires SaveUser(s, email, password, username, p, staff, superuser, normalize).Ok?
    ensures Good(SaveUser(s, email, password, username, p, staff, superuser, normalize).value.0)
  {
    var u := User(username, p.firstName, p.lastName, normalize(email), p.bio, p.experienceLevel,
                  HashOf(password), staff, superuser);
    RegisterKeepsGood(s, u);
  }

  /** The write of an edited user row. */
  function Rewrite(s: State, actor: UserId, u: User): (t: State)
    requires actor in s.users
    ensures t.users == s.users[actor := u] && t == s.(users := t.users)
  {
    s.(users := s.users[actor := u])
  }

  /** No user but `actor` has the username or the email of `u`. */
  predicate NamesFreeFor(s: State, actor: UserId, u: User)
  {
    forall v | v in s.users && v != actor :: s.users[v].username != u.username && s.users[v].email != u.email
  }

  lemma RewriteKeepsCounterAndReferences(s: State, actor: UserId, u: User)
    requires CounterAhead(s) && RowsReferToLiveRows(s) && actor in s.users
    ensures CounterAhead(Rewrite(s, actor, u)) && RowsReferToLiveRows(Rewrite(s, actor, u))
  {
  }

  lemma RewriteKeepsUniqueColumns(s: State, actor: UserId, u: User)
    requires UniqueColumns(s) && actor in s.users && NamesFreeFor(s, actor, u)
    ensures UniqueColumns(Rewrite(s, actor, u))
  {
    var t := Rewrite(s, actor, u);
    forall v, w | v in t.users && w in t.users && v != w
      ensures t.users[v].username != t.users[w].username && t.users[v].email != t.users[w].email
    {
      if v != actor && w != actor {
        assert t.users[v] == s.users[v] && t.users[w] == s.users[w];
      }
    }
  }

  /** Keeping one's own username and email never clashes in a good database. */
  lemma OwnNamesAreFree(s: State, actor: UserId, u: User)
    requires UniqueColumns(s) && actor in s.users
    requires u.username == s.users[actor].username && u.email == s.users[actor].email
    ensures NamesFreeFor(s, actor, u)
  {
  }

  lemma RewriteKeepsGood(s: State, actor: UserId, u: User)
    requires Good(s) && actor in s.users && NamesFreeFor(s, actor, u)
    ensures Good(Rewrite(s, actor, u))
  {
    RewriteKeepsCounterAndReferences(s, actor, u);
    RewriteKeepsUniqueColumns(s, actor, u);
    MatchFreeWriteKeepsTheRest(s, Rewrite(s, actor, u));
  }

  /** The password check is an oracle of the authentication library. A
      faithful one accepts a credential made from a password for that
      password and for no other. It says nothing about credentials made
      elsewhere, so a salted hash, which the stored credential need not be
      equal to, is allowed. */
  ghost predicate FaithfulCheck(check: (string, Credential) -> bool)
  {
    forall p: string, q: string {:trigger check(p, HashOf(q))} :: check(p, HashOf(q)) <==> p == q
  }

  /** The `password` view's POST for the logged-in `actor`: an invalid form
      changes nothing; a current password the oracle rejects is a form error;
      otherwise the new password is stored hashed. */
  function ChangePassword(s: State, actor: UserId, current: string, newPassword: string,
                          confirmation: string, check: (string, Credential) -> bool): (r: Response)
    requires actor in s.users
    ensures r.outcome == Done <==>
      PasswordFormValid(current, newPassword, confirmation) && check(current, s.users[actor].credential)
    ensures r.outcome == Done ==>
      r.state == Rewrite(s, actor, s.users[actor].(credential := HashOf(newPassword)))
    ensures r.outcome == Invalid(WrongPassword) <==>
      PasswordFormValid(current, newPassword, confirmation) && !check(current, s.users[actor].credential)
    ensures r.outcome != Done ==> r.state == s && r.outcome in {Invalid(BadFields), Invalid(WrongPassword)}
  {
    if !PasswordFormValid(current, newPassword, confirmation) then Response(s, Invalid(BadFields))
    else if !check(current, s.users[actor].credential) then Response(s, Invalid(WrongPassword))
    else Response(Rewrite(s, actor, s.users[actor].(credential := HashOf(newPassword))), Done)
  }

  /** With a faithful check, after a change the old password stops working
      unless it was reused, and changing back is accepted: the user's row is
      as before except for the stored credential, which the old password
      opens again. */
  lemma ChangePasswordBackRestores(s: State, actor: UserId, current: string, newPassword: string,
                                   check: (string, Credential) -> bool)
    requires actor in s.users && FaithfulCheck(check)
    requires ChangePassword(s, actor, current, newPassword, newPassword, check).outcome == Done
    ensures
      var t := ChangePassword(s, actor, current, newPassword, newPassword, check).state;
      var back := ChangePassword(t, actor, newPassword, current, current, check);
      && (current != newPassword ==>
            ChangePassword(t, actor, current, newPassword, newPassword, check).outcome == Invalid(WrongPassword))
      && back.outcome == Done
      && back.state == s.(users := back.state.users)
      && back.state.users == s.users[actor := s.users[actor].(credential := back.state.users[actor].credential)]
      && check(current, back.state.users[actor].credential)
  {
  }

  lemma ChangePasswordPreservesGood(s: State, actor: UserId, current: string, newPassword: string,
                                    confirmation: string, check: (string, Credential) -> bool)
    requires Good(s) && actor in s.users
    ensures Good(ChangePassword(s, actor, current, newPassword, confirmation, check).state)
  {
    if ChangePassword(s, actor, current, newPassword, confirmation, check).outcome == Done {
      var u := s.users[actor].(credential := HashOf(newPassword));
      OwnNamesAreFree(s, actor, u);
      RewriteKeepsGood(s, actor, u);
    }
  }

  /** The fields `UserForm` edits. */
  datatype ProfileForm = ProfileForm(
    firstName: string,
    lastName: string,
    username: string,
    email: string,
    experienceLevel: string,
    bio: string)

  /** The user row with the form's fields written into it. */
  function Edited(u: User, f: ProfileForm): (v: User)
    ensures v.credential == u.credential && v.isStaff == u.isStaff && v.isSuperuser == u.isSuperuser
  {
    u.(firstName := f.firstName, lastName := f.lastName, username := f.username,
       email := f.email, experienceLevel := f.experienceLevel, bio := f.bio)
  }

  /** Another user than `u` already has this username or email, the unique
      check a model form makes while leaving out the instance it edits. */
  predicate TakenByOther(s: State, u: UserId, f: ProfileForm)
  {
    exists v | v in s.users && v != u :: s.users[v].username == f.username || s.users[v].email == f.email
  }

  /** The form's values after `AbstractUser.clean`, which model validation
      runs after the field validators and before the unique check: the email
      is normalised, the other fields are as posted. */
  function Cleaned(f: ProfileForm, normalize: string -> string): (g: ProfileForm)
    ensures g.email == normalize(f.email) && g.(email := f.email) == f
  {
    f.(email := normalize(f.email))
  }

  /** The `profile` view's POST for the logged-in `actor`: the posted fields
      must pass the field validators; then the email is normalised, the
      normalised values must pass the unique checks, and they are saved. */
  function UpdateProfile(s: State, actor: UserId, f: ProfileForm, emailValid: string -> bool,
                         normalize: string -> string): (r: Response)
    requires actor in s.users
    ensures r.outcome == Done <==>
      UserFieldsValid(Edited(s.users[actor], f), emailValid) && !TakenByOther(s, actor, Cleaned(f, normalize))
    ensures r.outcome == Done ==> r.state == Rewrite(s, actor, Edited(s.users[actor], Cleaned(f, normalize)))
    ensures r.outcome == Done ==> r.state.users[actor].email == normalize(f.email)
    ensures r.outcome != Done ==> r == Response(s, Invalid(BadFields))
  {
    var cleaned := Cleaned(f, normalize);
    if UserFieldsValid(Edited(s.users[actor], f), emailValid) && !TakenByOther(s, actor, cleaned) then
      Response(Rewrite(s, actor, Edited(s.users[actor], cleaned)), Done)
    else
      Response(s, Invalid(BadFields))
  }

  /** The unique check sees the normalised email: posting a spelling of
      another user's email that normalises to it is refused. */
  lemma UpdateProfileRefusesAnotherUsersEmail(s: State, actor: UserId, other: UserId, f: ProfileForm,
                                              emailValid: string -> bool, normalize: string -> string)
    requires actor in s.users && other in s.users && other != actor
    requires s.users[other].email == normalize(f.email)
    ensures UpdateProfile(s, actor, f, emailValid, normalize) == Response(s, Invalid(BadFields))
  {
  }

  /** Posting the same profile again is accepted and changes nothing more. */
  lemma UpdateProfileIsIdempotent(s: State, actor: UserId, f: ProfileForm, emailValid: string -> bool,
                                  normalize: string -> string)
    requires actor in s.users
    requires UpdateProfile(s, actor, f, emailValid, normalize).outcome == Done
    ensures UpdateProfile(UpdateProfile(s, actor, f, emailValid, normalize).state, actor, f, emailValid, normalize)
      == UpdateProfile(s, actor, f, emailValid, normalize)
  {
  }

  /** Editing the profile keeps a good database good. */
  lemma UpdateProfilePreservesGood(s: State, actor: UserId, f: ProfileForm, emailValid: string -> bool,
                                   normalize: string -> string)
    requires Good(s) && actor in s.users
    ensures Good(UpdateProfile(s, actor, f, emailValid, normalize).state)
  {
    if UpdateProfile(s, actor, f, emailValid, normalize).outcome == Done {
      RewriteKeepsGood(s, actor, Edited(s.users[actor], Cleaned(f, normalize)));
    }
  }

  /** The users whose username is `name`: what `User.objects.get(username=…)` searches. */
  function UsersNamed(s: State, name: string): (ids: set<UserId>)
    ensures forall v :: v in ids <==> v in s.users && s.users[v].username == name
  {
    set v | v in s.users && s.users[v].username == name
  }

  /** `CloseAccountView.post` for the logged-in `actor`: an owner of any club
      is refused; otherwise the user found by the actor's username is deleted
      with all rows that refer to them. */
  function CloseAccount(s: State, actor: UserId): (r: Response)
    requires actor in s.users
    ensures IsOwner(s, actor) ==> r == Response(s, Refused)
    ensures r.outcome == Done <==> !IsOwner(s, actor) && |UsersNamed(s, s.users[actor].username)| == 1
    ensures r.outcome == Done ==> r.state == DeleteUserRows(s, actor)
    ensures r.outcome != Done ==> r.state == s
    ensures !IsOwner(s, actor) && r.outcome != Done ==> r.outcome == ServerError(MultipleObjectsReturned)
  {
    if IsOwner(s, actor) then Response(s, Refused)
    else
      match GetOne(UsersNamed(s, s.users[actor].username))
      case Err(e) => Response(s, ServerError(e))
      case Ok(u) => Response(DeleteUserRows(s, u), Done)
  }

  /** In a good database closing the account of a user who owns no club
      deletes that user, one user fewer, and keeps the database good: no club
      loses its owner. */
  lemma CloseAccountPreservesGood(s: State, actor: UserId)
    requires Good(s) && actor in s.users
    ensures !IsOwner(s, actor) ==> CloseAccount(s, actor).outcome == Done
    ensures CloseAccount(s, actor).outcome == Done ==>
      |CloseAccount(s, actor).state.users| == |s.users| - 1
    ensures Good(CloseAccount(s, actor).state)
  {
    if !IsOwner(s, actor) {
      var ids := UsersNamed(s, s.users[actor].username);
      assert ids == {actor};
      assert OwnsNothing(s, actor);
      DeleteUserRowsKeepsGood(s, actor);
      var t := DeleteUserRows(s, actor);
      assert t.users.Keys == s.users.Keys - {actor};
    }
  }

  /** Deleting the row just registered, which nothing refers to yet, gives
      back the database it was registered in (with the counter moved on). */
  lemma DeletingTheNewUserUndoesRegister(s: State, u: User)
    requires CounterAhead(s) && RowsReferToLiveRows(s)
    ensures DeleteUserRows(Register(s, u), s.nextId) == s.(nextId := s.nextId + 1)
  {
    var d := DeleteUserRows(Register(s, u), s.nextId);
    assert d.users == s.users;
    assert d.roles == s.roles;
    assert d.applications == s.applications;
    assert d.matches == s.matches;
  }

  /** Closing the account of a user just created, before they joined
      anything, gives back the database they were created in (with the
      counter moved on). */
  lemma CloseAccountUndoesCreateUser(s: State, email: string, password: string, username: string,
                                     p: Profile, flags: Flags, normalize: string -> string)
    requires CounterAhead(s) && RowsReferToLiveRows(s)
    requires CreateUser(s, email, password, username, p, flags, normalize).Ok?
    ensures
      var r := CreateUser(s, email, password, username, p, flags, normalize).value;
      r.1 in r.0.users && CloseAccount(r.0, r.1) == Response(s.(nextId := s.nextId + 1), Done)
  {
    var r := CreateUser(s, email, password, username, p, flags, normalize).value;
    var t, id := r.0, r.1;
    assert !IsOwner(t, id);
    assert UsersNamed(t, t.users[id].username) == {id};
    DeletingTheNewUserUndoesRegister(s, t.users[id]);
  }
}
