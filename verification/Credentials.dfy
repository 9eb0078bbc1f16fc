/** Who may log in under the scheduler's username scheme: the credential cache and the store in front of it. */
module Credentials {
  import opened Wrappers
  import opened Text
  import opened Username

  /** A snapshot of `key -> password` that is replaced as a whole. */
  class CredentialCache {
    var creds: map<string, string>

    constructor ()
      ensures creds == map[]
    {
      creds := map[];
    }

    /**
     `fetched` is what the source returned: an error, nothing (a nil map), or a snapshot. An error keeps
     the previous snapshot.
     */
    method Refresh(fetched: Result<Option<map<string, string>>, string>) returns (err: Option<string>)
      modifies this
      ensures fetched.Err? ==> creds == old(creds) && err == Some(fetched.error)
      ensures fetched.Ok? ==> err == None && creds == if fetched.value.Some? then fetched.value.value else map[]
    {
      match fetched
      case Err(e) => err := Some(e);
      case Ok(next) =>
        creds := if next == None then map[] else next.value;
        err := None;
    }

    predicate Accepts(user: string, password: string)
      reads this
    {
      var user := TrimSpace(user);
      user != "" && password != "" && user in creds && creds[user] == password
    }
  }

  /** `UsernameCredentialStore.Valid`; `inner` is nil when no store is configured. */
  predicate StoreAccepts(inner: CredentialCache?, user: string, password: string)
    reads inner
  {
    inner != null && Parse(user).Ok? && TrimSpace(password) != "" && inner.Accepts(Parse(user).value.AuthKey(), password)
  }

  /** A login succeeds exactly when the table has the password under "<user_id>:<session>", untrimmed. */
  lemma LoginExact(inner: CredentialCache, user: string, password: string)
    ensures StoreAccepts(inner, user, password) <==>
            && Parse(user).Ok?
            && TrimSpace(password) != ""
            && var tok := Parse(user).value;
               tok.userID + ":" + tok.session in inner.creds && inner.creds[tok.userID + ":" + tok.session] == password
  {
    if Parse(user).Ok? { AuthKeyTrimmed(Parse(user).value); }
  }

  /**
   Country and duration play no part in identity: two usernames of one account log in with the same
   passwords and are bound to the same lease key, and usernames of two accounts never share a lease key.
   */
  lemma SameAccount(inner: CredentialCache, user: string, user': string, password: string)
    requires Parse(user).Ok? && Parse(user').Ok?
    ensures var a, b := Parse(user).value, Parse(user').value;
            && (a.UserKey() == b.UserKey() <==> a.userID == b.userID && a.session == b.session)
            && (a.userID == b.userID && a.session == b.session ==>
                  (StoreAccepts(inner, user, password) <==> StoreAccepts(inner, user', password)))
  {
    AuthKeyInjective(Parse(user).value, Parse(user').value);
  }
}
