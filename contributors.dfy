/**
 * `/contributors register`: the command captures the caller's user name and
 * display name in a form; when the form is submitted, the handler looks the
 * user name up and either refuses ("already registered") or inserts one
 * contributors row. An optional link left empty is stored as NULL.
 */
module Contributors {
  import opened Wrappers
  import opened Databases

  /** What `register` hands the form: `str(ctx.author)` and the author's display name. */
  datatype RegisterForm = RegisterForm(discordUsername: string, discordDisplayName: Option<string>)

  datatype RegisterReply =
    | AlreadyRegistered        // "You are already registered as a Contributor."
    | Registered(creditName: string)  // "Registered as contributor: **<credit name>**"

  /** `value or None`: an empty optional input is stored as NULL. */
  function OptionalInput(s: string): (v: Value)
    ensures v == Null <==> s == ""
    ensures v != Null ==> v == Text(s)
  {
    if s == "" then Null else Text(s)
  }

  /** A display name the form holds, as the value stored for it. */
  function DisplayNameValue(name: Option<string>): (v: Value)
    ensures v == Null <==> name.None?
    ensures name.Some? ==> v == Text(name.value)
  {
    if name.Some? then Text(name.value) else Null
  }

  /** How many contributors rows carry user name `u`. */
  function RowsFor(db: Database, u: string): (n: nat)
    reads db
    ensures n <= |db.Rows(Contributors)|
    ensures n == 0 <==> forall k :: 0 <= k < |db.Rows(Contributors)| ==> !FieldIs(db.Rows(Contributors)[k], "discord_username", Text(u))
  {
    CountWhere(db.Rows(Contributors), "discord_username", Text(u))
  }

  /** `ContributorRegisterModal.callback`: the check-then-insert. */
  method SubmitRegistration(db: Database, form: RegisterForm, creditName: string, itchIoLink: string, altLink: string)
    returns (reply: RegisterReply)
    requires db.Valid()
    modifies db
    ensures db.Valid()
    ensures reply == AlreadyRegistered <==> old(db.EntryExists(Contributors, "discord_username", Text(form.discordUsername)))
    ensures reply == AlreadyRegistered ==> db.Rows(Contributors) == old(db.Rows(Contributors))
    ensures reply.Registered? ==> (reply.creditName == creditName &&
      db.Rows(Contributors) == old(db.Rows(Contributors)) +
        [Row(old(db.NextId(Contributors)), ContributorCols(form.discordUsername, creditName,
             DisplayNameValue(form.discordDisplayName), OptionalInput(itchIoLink), OptionalInput(altLink)))])
    ensures RowsFor(db, form.discordUsername) == if old(RowsFor(db, form.discordUsername)) == 0 then 1 else old(RowsFor(db, form.discordUsername))
    ensures forall u :: u != Contributors ==> db.Rows(u) == old(db.Rows(u)) && db.NextId(u) == old(db.NextId(u))
  {
    if db.EntryExists(Contributors, "discord_username", Text(form.discordUsername)) {
      return AlreadyRegistered;
    }
    ghost var before := db.Rows(Contributors);
    db.RegisterContributor(form.discordUsername, creditName, DisplayNameValue(form.discordDisplayName),
                           OptionalInput(itchIoLink), OptionalInput(altLink));
    var row := Row(old(db.NextId(Contributors)), ContributorCols(form.discordUsername, creditName,
                   DisplayNameValue(form.discordDisplayName), OptionalInput(itchIoLink), OptionalInput(altLink)));
    CountWhereAppend(before, row, "discord_username", Text(form.discordUsername));
    reply := Registered(creditName);
  }

  /** Submitting the form twice for the same user leaves exactly one row for that user. */
  method RegisterTwice(db: Database, form: RegisterForm, first: string, second: string)
    returns (r1: RegisterReply, r2: RegisterReply)
    requires db.Valid()
    requires RowsFor(db, form.discordUsername) == 0
    modifies db
    ensures db.Valid()
    ensures r1 == Registered(first) && r2 == AlreadyRegistered
    ensures RowsFor(db, form.discordUsername) == 1
  {
    r1 := SubmitRegistration(db, form, first, "", "");
    assert db.EntryExists(Contributors, "discord_username", Text(form.discordUsername));
    r2 := SubmitRegistration(db, form, second, "", "");
  }
}
