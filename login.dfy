/**
 * The credential table read from the `USERS` setting, token minting, and the decision of
 * the login form handler. Signing is a parameter; the clock is an integer number of seconds.
 */
module Login {
  import opened Wrappers
  import opened Text
  import opened Session

  /** Separator between the entries of `USERS`. */
  const EntrySep := '`'

  /** Separator between user name and password inside one entry. */
  const FieldSep := ':'

  /** One `name:password` entry. */
  datatype Credential = Credential(name: string, password: string)

  /** An entry unpacks only when splitting it on `:` gives exactly two parts. */
  function ParseEntry(e: string): Option<Credential> {
    var parts := Split(e, [FieldSep]);
    if |parts| == 2 then Some(Credential(parts[0], parts[1])) else None
  }

  /**
   * The table built from the entries in order, a later entry for a name overwriting an earlier
   * one; `None` when some entry does not unpack (the module fails to load).
   */
  function UsersFrom(entries: seq<string>): Option<map<string, string>> {
    if entries == [] then Some(map[])
    else
      match UsersFrom(entries[..|entries| - 1])
      case None => None
      case Some(m) =>
        match ParseEntry(entries[|entries| - 1])
        case None => None
        case Some(c) => Some(m[c.name := c.password])
  }

  /** The table for a `USERS` setting; a missing setting fails like a malformed one. */
  function UsersTable(env: Option<string>): Option<map<string, string>> {
    if env.None? then None else UsersFrom(Split(env.value, [EntrySep]))
  }

  /** The load-time loop that fills the table, stopping at the first malformed entry. */
  method LoadUsers(env: Option<string>) returns (users: Option<map<string, string>>)
    ensures users == UsersTable(env)
  {
    if env.None? {
      return None;
    }
    var entries := Split(env.value, [EntrySep]);
    var table: map<string, string> := map[];
    for i := 0 to |entries|
      invariant UsersFrom(entries[..i]) == Some(table)
    {
      assert entries[..i + 1][..i] == entries[..i];
      var c := ParseEntry(entries[i]);
      if c.None? {
        UsersFromSucceeds(entries);
        return None;
      }
      table := table[c.value.name := c.value.password];
    }
    assert entries[..|entries|] == entries;
    users := Some(table);
  }

  // ---- Tokens and the login form --------------------------------------------------------

  /** `create_access_token`: the claims carry the subject and expire `TokenLifetime` seconds from now. */
  function CreateAccessToken(sign: Claims -> string, username: Option<string>, now: int): string {
    sign(Claims(username, Some(now + TokenLifetime)))
  }

  /** `form.get(name)` */
  function Field(form: map<string, string>, name: string): Option<string> {
    if name in form then Some(form[name]) else None
  }

  /** `users.get(username)`: nothing for an absent user name or an unknown user. */
  function Lookup(users: map<string, string>, username: Option<string>): Option<string> {
    if username.Some? && username.value in users then Some(users[username.value]) else None
  }

  /** The two answers of the form handler: a 303 redirect that sets the cookie, or the error form. */
  datatype LoginOutcome = SeeOther(location: string, token: string) | ErrorForm

  /** The HTTP status of each answer. */
  function Status(o: LoginOutcome): int {
    if o.SeeOther? then 303 else 200
  }

  /** The redirect target: the `next` query parameter, `/` by default. */
  function NextOrRoot(next: Option<string>): string {
    if next.Some? then next.value else "/"
  }

  /** `login_submit` as written: the form password is compared with `users.get(username)`. */
  function LoginSubmitAsWritten(users: map<string, string>, form: map<string, string>, next: Option<string>,
                                sign: Claims -> string, now: int): (o: LoginOutcome)
    ensures "password" in form ==>
              (o.SeeOther? <==> "username" in form && form["username"] in users && users[form["username"]] == form["password"])
    ensures o.SeeOther? ==> o == SeeOther(NextOrRoot(next), sign(Claims(Field(form, "username"), Some(now + TokenLifetime))))
  {
    var username := Field(form, "username");
    if Field(form, "password") == Lookup(users, username)
    then SeeOther(NextOrRoot(next), CreateAccessToken(sign, username, now))
    else ErrorForm
  }

  /** `login_submit` as intended: a password must be given and must be that of a known user. */
  function LoginSubmit(users: map<string, string>, form: map<string, string>, next: Option<string>,
                       sign: Claims -> string, now: int): (o: LoginOutcome)
    ensures o.SeeOther? ==> "password" in form && "username" in form && form["username"] in users
    ensures o.SeeOther? ==> o.location == NextOrRoot(next)
  {
    var username := Field(form, "username");
    var password := Field(form, "password");
    if password.Some? && password == Lookup(users, username)
    then SeeOther(NextOrRoot(next), CreateAccessToken(sign, username, now))
    else ErrorForm
  }

  // ---- Lemmas: the credential table -----------------------------------------------------

  /** The table loads exactly when every entry unpacks. */
  lemma {:induction false} UsersFromSucceeds(entries: seq<string>)
    ensures UsersFrom(entries).Some? <==> forall k :: 0 <= k < |entries| ==> ParseEntry(entries[k]).Some?
  {
    if entries != [] {
      var init := entries[..|entries| - 1];
      UsersFromSucceeds(init);
      assert forall k :: 0 <= k < |init| ==> init[k] == entries[k];
    }
  }

  /** The names in the table are exactly the names of the entries. */
  lemma {:induction false} UsersFromKeys(entries: seq<string>, name: string)
    requires forall k :: 0 <= k < |entries| ==> ParseEntry(entries[k]).Some?
    ensures UsersFrom(entries).Some?
    ensures name in UsersFrom(entries).value <==>
              exists k :: 0 <= k < |entries| && ParseEntry(entries[k]).value.name == name
  {
    UsersFromSucceeds(entries);
    if entries != [] {
      var init := entries[..|entries| - 1];
      assert forall k :: 0 <= k < |init| ==> init[k] == entries[k];
      UsersFromKeys(init, name);
      if name in UsersFrom(entries).value && ParseEntry(entries[|entries| - 1]).value.name != name {
        var k :| 0 <= k < |init| && ParseEntry(init[k]).value.name == name;
        assert ParseEntry(entries[k]).value.name == name;
      }
    }
  }

  /** The password stored for a name is that of the last entry with that name. */
  lemma {:induction false} LastEntryWins(entries: seq<string>, k: nat)
    requires forall j :: 0 <= j < |entries| ==> ParseEntry(entries[j]).Some?
    requires k < |entries|
    requires forall j :: k < j < |entries| ==> ParseEntry(entries[j]).value.name != ParseEntry(entries[k]).value.name
    ensures UsersFrom(entries).Some?
    ensures ParseEntry(entries[k]).value.name in UsersFrom(entries).value
    ensures UsersFrom(entries).value[ParseEntry(entries[k]).value.name] == ParseEntry(entries[k]).value.password
  {
    UsersFromSucceeds(entries);
    if k < |entries| - 1 {
      var init := entries[..|entries| - 1];
      assert forall j :: 0 <= j < |init| ==> init[j] == entries[j];
      LastEntryWins(init, k);
    }
  }

  /** An entry written as `name:password` unpacks into that name and password. */
  lemma ParseEntryOf(c: Credential)
    requires FieldSep !in c.name && FieldSep !in c.password
    ensures ParseEntry(c.name + [FieldSep] + c.password) == Some(c)
  {
    SplitCharPrepend(c.name, FieldSep, c.password);
    SplitCharFree(c.password, FieldSep);
  }

  /** An entry without `:` does not unpack, so neither does an empty `USERS` setting. */
  lemma EntryWithoutColon(e: string)
    requires FieldSep !in e
    ensures ParseEntry(e) == None
    ensures UsersTable(Some("")) == None
  {
    SplitCharFree(e, FieldSep);
    SplitCharFree("", EntrySep);
    SplitCharFree("", FieldSep);
    assert UsersFrom([""]) == None by {
      assert [""][..0] == [];
    }
  }

  /** The `name:password` entries of a credential list, in order. */
  function Entries(creds: seq<Credential>): (es: seq<string>)
    ensures |es| == |creds|
    ensures forall k :: 0 <= k < |creds| ==> es[k] == creds[k].name + [FieldSep] + creds[k].password
  {
    if creds == [] then [] else Entries(creds[..|creds| - 1]) + [creds[|creds| - 1].name + [FieldSep] + creds[|creds| - 1].password]
  }

  /**
   * A `USERS` setting written from a non-empty list of credentials (no separator inside a name
   * or a password) loads, and every listed name gets the password of its last occurrence.
   */
  lemma UsersTableOf(creds: seq<Credential>, k: nat)
    requires |creds| >= 1 && k < |creds|
    requires forall j :: 0 <= j < |creds| ==>
               FieldSep !in creds[j].name && FieldSep !in creds[j].password &&
               EntrySep !in creds[j].name && EntrySep !in creds[j].password
    requires forall j :: k < j < |creds| ==> creds[j].name != creds[k].name
    ensures UsersTable(Some(Join(Entries(creds), [EntrySep]))).Some?
    ensures creds[k].name in UsersTable(Some(Join(Entries(creds), [EntrySep]))).value
    ensures UsersTable(Some(Join(Entries(creds), [EntrySep]))).value[creds[k].name] == creds[k].password
  {
    var es := Entries(creds);
    forall j | 0 <= j < |es|
      ensures EntrySep !in es[j]
      ensures ParseEntry(es[j]) == Some(creds[j])
    {
      ParseEntryOf(creds[j]);
    }
    SplitJoinChar(es, EntrySep);
    LastEntryWins(es, k);
  }

  // ---- Lemmas: the login decision -------------------------------------------------------

  /** The intended check succeeds exactly for a known user with that user's password. */
  lemma LoginSubmitSound(users: map<string, string>, form: map<string, string>, next: Option<string>,
                         sign: Claims -> string, now: int)
    ensures LoginSubmit(users, form, next, sign, now).SeeOther? <==>
              "username" in form && form["username"] in users &&
              "password" in form && form["password"] == users[form["username"]]
    ensures LoginSubmit(users, form, next, sign, now).SeeOther? ==>
              LoginSubmit(users, form, next, sign, now) ==
                SeeOther(NextOrRoot(next), sign(Claims(Some(form["username"]), Some(now + TokenLifetime))))
  {
  }

  /** Whenever the form carries a password, the code as written decides as intended. */
  lemma AsWrittenAgreesWithPassword(users: map<string, string>, form: map<string, string>, next: Option<string>,
                                    sign: Claims -> string, now: int)
    requires "password" in form
    ensures LoginSubmitAsWritten(users, form, next, sign, now) == LoginSubmit(users, form, next, sign, now)
  {
  }

  /**
   * The discrepancy: a form with an unknown user name and no password field logs in as
   * written, and is refused by the intended check.
   */
  lemma AsWrittenBypass(users: map<string, string>, name: string, sign: Claims -> string, now: int)
    requires name !in users
    ensures LoginSubmitAsWritten(users, map["username" := name], None, sign, now) ==
              SeeOther("/", sign(Claims(Some(name), Some(now + TokenLifetime))))
    ensures LoginSubmit(users, map["username" := name], None, sign, now) == ErrorForm
  {
  }

  /**
   * For a verifier that gives back what was signed, a minted token decodes until
   * `TokenLifetime` seconds after it was minted, and to the user it was minted for.
   */
  lemma AccessTokenLifetime(sign: Claims -> string, verify: string -> Option<Claims>, user: Option<string>,
                            now: int, t: int)
    requires verify(CreateAccessToken(sign, user, now)) == Some(Claims(user, Some(now + TokenLifetime)))
    ensures Decode(verify, CreateAccessToken(sign, user, now), t).Some? <==> t < now + TokenLifetime
    ensures t < now + TokenLifetime ==> Decode(verify, CreateAccessToken(sign, user, now), t).value.sub == user
  {
  }

  /**
   * A token minted for a user passes the gate on every path until it expires, and only
   * exempt paths pass from its expiry on.
   */
  lemma TokenGrantsAccess(sign: Claims -> string, verify: string -> Option<Claims>, user: string, now: int,
                          t: int, path: string, query: string)
    requires verify(CreateAccessToken(sign, Some(user), now)) == Some(Claims(Some(user), Some(now + TokenLifetime)))
    requires CreateAccessToken(sign, Some(user), now) != ""
    ensures (CheckAuth(path, query, map[SessionCookie := CreateAccessToken(sign, Some(user), now)], verify, t) == PassThrough)
              <==> (Exempt(path) || t < now + TokenLifetime)
  {
  }

  /**
   * End to end, the bypass yields a working session: for a signer whose tokens verify,
   * the token set by the as-written handler for an unknown name opens every path for 30 minutes.
   */
  lemma BypassOpensGate(users: map<string, string>, name: string, sign: Claims -> string,
                        verify: string -> Option<Claims>, now: int, t: int, path: string, query: string)
    requires name !in users
    requires verify(sign(Claims(Some(name), Some(now + TokenLifetime)))) == Some(Claims(Some(name), Some(now + TokenLifetime)))
    requires sign(Claims(Some(name), Some(now + TokenLifetime))) != ""
    requires now <= t < now + TokenLifetime
    ensures LoginSubmitAsWritten(users, map["username" := name], None, sign, now).SeeOther?
    ensures CheckAuth(path, query,
                      map[SessionCookie := LoginSubmitAsWritten(users, map["username" := name], None, sign, now).token],
                      verify, t) == PassThrough
  {
    AsWrittenBypass(users, name, sign, now);
    TokenGrantsAccess(sign, verify, name, now, t, path, query);
  }
}
