/** Properties of the token store and of account uniqueness. */
module AuthFacts {
  import opened Wrappers
  import opened AppointmentModel
  import opened Accounts
  import opened Auth

  /** `findOne` stops at the first record carrying the string. */
  lemma {:induction false} FindTokenAt(tokens: Tokens, token: string, k: nat)
    requires k < |tokens| && tokens[k].token == token
    requires forall i :: 0 <= i < k ==> tokens[i].token != token
    ensures FindToken(tokens, token) == Some(k)
  {
    if k > 0 {
      FindTokenAt(tokens[1..], token, k - 1);
    }
  }

  /** Changing only the `revoked` flags keeps every lookup where it was. */
  lemma FindTokenSameStrings(tokens: Tokens, tokens': Tokens, token: string)
    requires |tokens'| >= |tokens|
    requires forall i :: 0 <= i < |tokens| ==> tokens'[i].token == tokens[i].token
    requires FindToken(tokens, token).Some?
    ensures FindToken(tokens', token) == FindToken(tokens, token)
  {
    FindTokenAt(tokens', token, FindToken(tokens, token).value);
  }

  /** Rotation: a token that refreshed once is refused from then on. */
  lemma RefreshTwiceFails(users: Users, tokens: Tokens, token: string, t1: string, t2: string,
                          now: int, later: int)
    requires Refresh(users, tokens, Some(token), t1, now).Ok?
    ensures var tokens' := Refresh(users, tokens, Some(token), t1, now).value.0;
      Refresh(users, tokens', Some(token), t2, later) == Err(AppError("Invalid or expired refresh token", 403))
  {
    var tokens' := Refresh(users, tokens, Some(token), t1, now).value.0;
    FindTokenSameStrings(tokens, tokens', token);
  }

  /** The token a refresh hands out is usable until seven days later, when
      the random string is new to the store. */
  lemma RefreshedTokenUsable(users: Users, tokens: Tokens, token: string, newToken: string,
                             now: int, later: int)
    requires Refresh(users, tokens, Some(token), newToken, now).Ok?
    requires FindToken(tokens, newToken).None?
    requires later < now + TokenLifetime
    ensures var tokens' := Refresh(users, tokens, Some(token), newToken, now).value.0;
      Usable(tokens', newToken, later)
  {
    var tokens' := Refresh(users, tokens, Some(token), newToken, now).value.0;
    FindTokenAt(tokens', newToken, |tokens|);
  }

  /** A revoked token can no longer refresh. */
  lemma RevokeThenRefreshFails(users: Users, tokens: Tokens, token: string, newToken: string, now: int)
    requires token != ""
    ensures Refresh(users, RevokeToken(tokens, token), Some(token), newToken, now)
         == Err(AppError("Invalid or expired refresh token", 403))
  {
    if FindToken(tokens, token).Some? {
      FindTokenSameStrings(tokens, RevokeToken(tokens, token), token);
    } else {
      assert RevokeToken(tokens, token) == tokens;
    }
  }

  /** After a password change no refresh token of that user works. */
  lemma ChangePasswordEndsSessions(users: Users, tokens: Tokens, userId: Id, hash: string,
                                   token: string, newToken: string, now: int)
    requires ChangePassword(users, tokens, userId, true, hash).Ok?
    requires FindToken(tokens, token).Some? && tokens[FindToken(tokens, token).value].user == userId
    ensures var (users', tokens') := ChangePassword(users, tokens, userId, true, hash).value;
      Refresh(users', tokens', Some(token), newToken, now).Err?
  {
    var (users', tokens') := ChangePassword(users, tokens, userId, true, hash).value;
    FindTokenSameStrings(tokens, tokens', token);
  }

  /** Registration keeps emails unique. */
  lemma RegisterPreservesUniqueEmails(users: Users, tokens: Tokens, name: string, email: string,
                                      hash: string, role: Option<string>, newToken: string, now: int)
    requires UniqueEmails(users)
    requires Register(users, tokens, name, email, hash, role, newToken, now).Ok?
    ensures UniqueEmails(Register(users, tokens, name, email, hash, role, newToken, now).value.0)
  {
    var users' := Register(users, tokens, name, email, hash, role, newToken, now).value.0;
    forall i, j | 0 <= i < j < |users'| ensures users'[i].email != users'[j].email {
      if j == |users| {
        assert users'[i] == users[i];
      } else {
        assert users'[i] == users[i] && users'[j] == users[j];
      }
    }
  }

  /** The same email cannot register twice. */
  lemma RegisterTwiceFails(users: Users, tokens: Tokens, name: string, name2: string, email: string,
                           hash: string, hash2: string, role: Option<string>, role2: Option<string>,
                           t1: string, t2: string, now: int, later: int)
    requires Register(users, tokens, name, email, hash, role, t1, now).Ok?
    ensures var (users', tokens', _) := Register(users, tokens, name, email, hash, role, t1, now).value;
      Register(users', tokens', name2, email, hash2, role2, t2, later) == Err(AppError("User already exists", 400))
  {
    var (users', tokens', _) := Register(users, tokens, name, email, hash, role, t1, now).value;
    assert users'[|users|].email == email;
  }

  /** A profile update keeps emails unique. */
  lemma UpdateProfilePreservesUniqueEmails(users: Users, userId: Id, name: Option<string>,
                                           email: Option<string>)
    requires UniqueEmails(users)
    requires UpdateProfile(users, userId, name, email).Ok?
    ensures UniqueEmails(UpdateProfile(users, userId, name, email).value.0)
  {
    var k := FindUser(users, userId).value;
    var users' := UpdateProfile(users, userId, name, email).value.0;
    forall i, j | 0 <= i < j < |users'| ensures users'[i].email != users'[j].email {
      if i == k || j == k {
        var other := if i == k then j else i;
        assert users'[other] == users[other];
        if users'[k].email != users[k].email {
          assert FindByEmail(users, email.value).None?;
        }
      } else {
        assert users'[i] == users[i] && users'[j] == users[j];
      }
    }
  }
}
