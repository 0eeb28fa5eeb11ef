/** The auth store: signing in, impersonating and coming back, and rehydrating from storage. */
module AuthStore {
  import opened Options

  /** The `impersonation` key of a user object: not there, there but undefined, or a boolean. */
  datatype Flag = Missing | Undefined | Is(value: bool)

  /** A user: its `impersonation` key, and the other fields. */
  datatype User = User(fields: map<string, string>, impersonation: Flag)

  datatype Backup = Backup(accessToken: Option<string>, user: Option<User>)

  datatype State = State(accessToken: Option<string>, user: Option<User>, backup: Option<Backup>)

  datatype Action =
    | SetAuth(token: string, newUser: User)
    | SetTokensFromRefresh(token: string)
    | UpdateUser(patch: User)
    | BeginImpersonation(token: string, patch: User)
    | ExitImpersonation
    | ClearSession
    | Logout
    | Rehydrate(persisted: Option<User>)

  const SIGNED_OUT := State(None, None, None)

  predicate HasToken(token: Option<string>) {
    token.Some? && token.value != ""
  }

  predicate IsImpersonating(user: User) {
    user.impersonation == Is(true)
  }

  /** `{ ...base, ...over }`: a key present in `over` wins, even when it holds undefined. */
  function Spread(base: User, over: User): User {
    User(base.fields + over.fields, if over.impersonation.Missing? then base.impersonation else over.impersonation)
  }

  /** The `merge` of the persist middleware. */
  function Merge(persisted: Option<User>, s: State): State {
    if persisted.None? then s
    else if HasToken(s.accessToken) && s.user.Some? then s.(user := Some(Spread(persisted.value, s.user.value)))
    else s.(user := persisted)
  }

  function Begin(s: State, token: string, patch: User): State {
    if s.user.None? then s
    else
      State(Some(token), Some(Spread(s.user.value, patch).(impersonation := Is(true))),
            if HasToken(s.accessToken) && !IsImpersonating(s.user.value) then Some(Backup(s.accessToken, s.user)) else s.backup)
  }

  function Exit(s: State): State {
    if s.backup.None? || s.backup.value.user.None? then s
    else if !HasToken(s.backup.value.accessToken) then s.(backup := None)
    else State(s.backup.value.accessToken, Some(s.backup.value.user.value.(impersonation := Undefined)), None)
  }

  function Apply(s: State, a: Action): State {
    match a
    case SetAuth(token, user) => s.(accessToken := Some(token), user := Some(user))
    case SetTokensFromRefresh(token) => s.(accessToken := Some(token))
    case UpdateUser(patch) => if s.user.None? then s else s.(user := Some(Spread(s.user.value, patch)))
    case BeginImpersonation(token, patch) => Begin(s, token, patch)
    case ExitImpersonation => Exit(s)
    case ClearSession => SIGNED_OUT
    case Logout => SIGNED_OUT
    case Rehydrate(persisted) => Merge(persisted, s)
  }

  function Run(s: State, actions: seq<Action>): State {
    if actions == [] then s else Apply(Run(s, actions[..|actions| - 1]), actions[|actions| - 1])
  }

  /** The store itself, with the closure variable that holds the backup. */
  class AuthStore {
    var accessToken: Option<string>
    var user: Option<User>
    var impersonationBackup: Option<Backup>

    function Snapshot(): State
      reads this
    {
      State(accessToken, user, impersonationBackup)
    }

    constructor ()
      ensures Snapshot() == SIGNED_OUT
    {
      accessToken, user, impersonationBackup := None, None, None;
    }

    method DoSetAuth(token: string, newUser: User)
      modifies this
      ensures Snapshot() == Apply(old(Snapshot()), SetAuth(token, newUser))
    {
      accessToken, user := Some(token), Some(newUser);
    }

    method DoSetTokensFromRefresh(token: string)
      modifies this
      ensures Snapshot() == Apply(old(Snapshot()), SetTokensFromRefresh(token))
    {
      accessToken := Some(token);
    }

    method DoUpdateUser(patch: User)
      modifies this
      ensures Snapshot() == Apply(old(Snapshot()), UpdateUser(patch))
    {
      if user.Some? {
        user := Some(Spread(user.value, patch));
      }
    }

    method DoBeginImpersonation(token: string, patch: User)
      modifies this
      ensures Snapshot() == Apply(old(Snapshot()), BeginImpersonation(token, patch))
    {
      if user.None? {
        return;
      }
      if HasToken(accessToken) && !IsImpersonating(user.value) {
        impersonationBackup := Some(Backup(accessToken, user));
      }
      var nextUser := Spread(user.value, patch).(impersonation := Is(true));
      accessToken, user := Some(token), Some(nextUser);
    }

    method DoExitImpersonation()
      modifies this
      ensures Snapshot() == Apply(old(Snapshot()), ExitImpersonation)
    {
      if impersonationBackup.None? || impersonationBackup.value.user.None? {
        return;
      }
      var saved := impersonationBackup.value;
      impersonationBackup := None;
      if !HasToken(saved.accessToken) {
        return;
      }
      DoSetAuth(saved.accessToken.value, saved.user.value.(impersonation := Undefined));
    }

    method DoClearSession()
      modifies this
      ensures Snapshot() == Apply(old(Snapshot()), ClearSession) == Apply(old(Snapshot()), Logout)
    {
      impersonationBackup := None;
      accessToken, user := None, None;
    }

    method DoRehydrate(persisted: Option<User>)
      modifies this
      ensures Snapshot() == Apply(old(Snapshot()), Rehydrate(persisted))
    {
      if persisted.Some? {
        if HasToken(accessToken) && user.Some? {
          user := Some(Spread(persisted.value, user.value));
        } else {
          user := persisted;
        }
      }
    }
  }

  // ----- Properties of runs -----

  /** A stored backup is a session of its own, with a token, and not itself an impersonation. */
  predicate BackupInv(s: State) {
    s.backup.Some? ==>
      && HasToken(s.backup.value.accessToken) && s.backup.value.user.Some?
      && !IsImpersonating(s.backup.value.user.value)
  }

  lemma {:induction false} BackupsAreRealSessions(actions: seq<Action>)
    ensures BackupInv(Run(SIGNED_OUT, actions))
  {
    if actions != [] {
      BackupsAreRealSessions(actions[..|actions| - 1]);
    }
  }

  /** What a session may go through before its exit: begins, token refreshes, patches and rehydrations of any kind. */
  predicate IsMixed(a: Action) {
    a.BeginImpersonation? || a.SetTokensFromRefresh? || a.UpdateUser? || a.Rehydrate?
  }

  /** The guard of the backup: a begin in a session that has a token and is not impersonating. */
  predicate Saves(s: State, a: Action) {
    a.BeginImpersonation? && s.user.Some? && HasToken(s.accessToken) && !IsImpersonating(s.user.value)
  }

  /** The session before the last begin that saved it. */
  function LastSaved(s: State, actions: seq<Action>): Option<State> {
    if actions == [] then None
    else
      var before := Run(s, actions[..|actions| - 1]);
      if Saves(before, actions[|actions| - 1]) then Some(before) else LastSaved(s, actions[..|actions| - 1])
  }

  lemma {:induction false} BackupIsLast(s: State, actions: seq<Action>)
    requires forall i :: 0 <= i < |actions| ==> IsMixed(actions[i])
    ensures var last := LastSaved(s, actions);
      && Run(s, actions).backup == (if last.None? then s.backup else Some(Backup(last.value.accessToken, last.value.user)))
      && (last.Some? ==> HasToken(last.value.accessToken) && last.value.user.Some? && !IsImpersonating(last.value.user.value))
  {
    hide Spread;
    if actions != [] {
      BackupIsLast(s, actions[..|actions| - 1]);
      assert IsMixed(actions[|actions| - 1]);
    }
  }

  lemma {:induction false} FirstBeginSaves(s: State, actions: seq<Action>)
    requires actions != [] && Saves(s, actions[0])
    ensures LastSaved(s, actions).Some?
  {
    if |actions| == 1 {
      assert actions[..0] == [];
    } else {
      FirstBeginSaves(s, actions[..|actions| - 1]);
    }
  }

  /** Token and user fields are those of the original session, and no backup is left. */
  predicate Restores(end: State, original: State) {
    && end.accessToken == original.accessToken && end.user.Some? && original.user.Some?
    && end.user.value.fields == original.user.value.fields && end.backup.None?
  }

  /**
   * From a signed-in session that is no impersonation: after a begin and any mix of further begins, refreshes, patches
   * and rehydrations, the exit restores the session if and only if the last begin to pass the guard of the backup
   * saw the original token and fields. The user comes back with an impersonation key that is there, and undefined.
   */
  lemma ExitRestoresIff(s: State, actions: seq<Action>)
    requires actions != [] && Saves(s, actions[0])
    requires forall i :: 0 <= i < |actions| ==> IsMixed(actions[i])
    ensures var end, last := Exit(Run(s, actions)), LastSaved(s, actions);
      && last.Some? && last.value.user.Some?
      && end == State(last.value.accessToken, Some(last.value.user.value.(impersonation := Undefined)), None)
      && (Restores(end, s) <==> last.value.accessToken == s.accessToken && last.value.user.value.fields == s.user.value.fields)
      && (Restores(end, s) ==> (end.user == s.user <==> s.user.value.impersonation == Undefined))
  {
    hide Run, LastSaved;
    BackupIsLast(s, actions);
    FirstBeginSaves(s, actions);
  }

  /** The ordinary run: tokens are not empty, and patches leave the impersonation flag alone. */
  predicate KeepsImpersonating(a: Action) {
    match a
    case BeginImpersonation(token, _) => token != ""
    case SetTokensFromRefresh(token) => token != ""
    case UpdateUser(patch) => patch.impersonation.Missing?
    case Rehydrate(_) => true
    case _ => false
  }

  predicate ImpersonatingNow(s: State) {
    HasToken(s.accessToken) && s.user.Some? && IsImpersonating(s.user.value)
  }

  lemma {:induction false} OnlyFirstSaves(s: State, actions: seq<Action>)
    requires actions != [] && Saves(s, actions[0])
    requires forall i :: 0 <= i < |actions| ==> KeepsImpersonating(actions[i])
    ensures ImpersonatingNow(Run(s, actions)) && LastSaved(s, actions) == Some(s)
  {
    var front, a := actions[..|actions| - 1], actions[|actions| - 1];
    assert KeepsImpersonating(a);
    if front == [] {
      assert Run(s, front) == s;
    } else {
      OnlyFirstSaves(s, front);
    }
  }

  /** In an ordinary run only the first begin saves, so the exit restores the session. */
  lemma ExitRestoresSession(s: State, actions: seq<Action>)
    requires actions != [] && Saves(s, actions[0])
    requires forall i :: 0 <= i < |actions| ==> KeepsImpersonating(actions[i])
    ensures Restores(Exit(Run(s, actions)), s)
    ensures Exit(Run(s, actions)).user == s.user <==> s.user.value.impersonation == Undefined
  {
    hide Run, LastSaved;
    OnlyFirstSaves(s, actions);
    ExitRestoresIff(s, actions);
  }

  /** A patch of the flag breaks it: the next begin then saves the impersonated session over the original one. */
  lemma FlagPatchLosesSession(s: State, first: string, second: string, patch: User)
    requires HasToken(s.accessToken) && s.user.Some? && !IsImpersonating(s.user.value) && first != ""
    ensures var notImpersonating := User(map[], Is(false));
      var end := Exit(Run(s, [BeginImpersonation(first, patch), UpdateUser(notImpersonating), BeginImpersonation(second, patch)]));
      end.accessToken == Some(first) && end.user == Some(Spread(s.user.value, patch).(impersonation := Undefined))
  {
    var a, b, c := BeginImpersonation(first, patch), UpdateUser(User(map[], Is(false))), BeginImpersonation(second, patch);
    assert [a, b, c][..2] == [a, b] && [a, b][..1] == [a] && [a][..0] == [];
    assert Run(s, []) == s;
    assert Run(s, [a]) == Begin(s, first, patch);
    var fields := (s.user.value.fields + patch.fields) + map[];
    assert fields == s.user.value.fields + patch.fields;
    assert Run(s, [a, b]) == Run(s, [a]).(user := Some(Spread(Run(s, [a]).user.value, User(map[], Is(false)))));
  }

  /** An empty token breaks it: a rehydration then replaces the user, and the next begin overwrites the backup. */
  lemma EmptyTokenLosesSession(s: State, patch: User, stale: User, token: string)
    requires HasToken(s.accessToken) && s.user.Some? && !IsImpersonating(s.user.value)
    requires token != "" && !IsImpersonating(stale)
    ensures var end := Exit(Run(s, [BeginImpersonation("", patch), Rehydrate(Some(stale)), SetTokensFromRefresh(token), BeginImpersonation(token, patch)]));
      end.accessToken == Some(token) && end.user == Some(stale.(impersonation := Undefined))
  {
    var a, b, c, d := BeginImpersonation("", patch), Rehydrate(Some(stale)), SetTokensFromRefresh(token), BeginImpersonation(token, patch);
    assert [a, b, c, d][..3] == [a, b, c] && [a, b, c][..2] == [a, b] && [a, b][..1] == [a] && [a][..0] == [];
    assert Run(s, []) == s;
    assert Run(s, [a]) == Begin(s, "", patch);
    var s2 := Run(s, [a, b]);
    assert s2 == Merge(Some(stale), Begin(s, "", patch));
    var s3 := Run(s, [a, b, c]);
    assert s3.accessToken == Some(token) && s3.user == Some(stale);
  }

  /**
   * A rehydration during a live session keeps every field the session has and only adds from storage,
   * among them an impersonation flag that the session's user does not carry.
   */
  lemma RehydrateOnlyAdds(s: State, persisted: User)
    requires HasToken(s.accessToken) && s.user.Some?
    ensures var u, m := s.user.value, Merge(Some(persisted), s);
      && m.accessToken == s.accessToken && m.backup == s.backup && m.user.Some?
      && (forall k :: k in u.fields ==> k in m.user.value.fields && m.user.value.fields[k] == u.fields[k])
      && m.user.value.fields.Keys == u.fields.Keys + persisted.fields.Keys
      && (IsImpersonating(m.user.value) <==> IsImpersonating(u) || (u.impersonation.Missing? && IsImpersonating(persisted)))
  {
  }

  /** What the plain actions leave alone, and what signing out leaves: nothing. */
  lemma PlainActions(s: State, token: string, user: User, patch: User)
    ensures Apply(s, SetAuth(token, user)) == State(Some(token), Some(user), s.backup)
    ensures Apply(s, SetTokensFromRefresh(token)) == State(Some(token), s.user, s.backup)
    ensures Apply(s, ClearSession) == Apply(s, Logout) == State(None, None, None)
    ensures var t := Apply(s, UpdateUser(patch));
      && t.accessToken == s.accessToken && t.backup == s.backup && (t.user.Some? <==> s.user.Some?)
      && (s.user.Some? ==>
            && t.user.value.fields.Keys == s.user.value.fields.Keys + patch.fields.Keys
            && (forall k :: k in patch.fields ==> t.user.value.fields[k] == patch.fields[k])
            && (forall k :: k in s.user.value.fields && k !in patch.fields ==> t.user.value.fields[k] == s.user.value.fields[k])
            && t.user.value.impersonation == if patch.impersonation == Missing then s.user.value.impersonation else patch.impersonation)
  {
  }
}
