/**
  The stored outbound mail identities of src/models/EmailSettings.js: one row for each organization
  and function, a write-only password, and saves that name only some of the fields.
*/
module EmailSettings {
  import opened Wrappers

  type OrgId = nat

  const FUNCTIONS: seq<string> := ["general", "support", "billing", "noc"]
  const DEFAULT_FUNCTION := "general"
  const DEFAULT_PORT: nat := 587

  function NormalizeFunction(fn: string): string {
    if fn in FUNCTIONS then fn else DEFAULT_FUNCTION
  }

  /** A property of the request body: not there (or there as undefined), null, or a value. */
  datatype Field<T> = Absent | Null | Value(value: T)

  /** smtp_password tells a missing property from an undefined one. */
  datatype PasswordField = NoProperty | Undefined | NullPassword | Password(text: string)

  datatype Fields = Fields(
    enabled: Field<bool>, host: Field<string>, port: Field<nat>, secure: Field<bool>, user: Field<string>,
    password: PasswordField, fromEmail: Field<string>, fromName: Field<string>)

  /** A ciphertext, known by what it decrypts to. */
  datatype Cipher = Cipher(plain: string)

  datatype TestResult = NeverTested | Passed | Failed(error: string)

  datatype Row = Row(
    enabled: bool, host: Option<string>, port: Option<nat>, secure: bool, user: Option<string>,
    password: Option<Cipher>, fromEmail: Option<string>, fromName: Option<string>, test: TestResult)

  /** The server and account a password is for. */
  datatype Identity = Identity(host: Option<string>, port: nat, secure: bool, user: Option<string>)

  datatype SaveError = PasswordNeeded | EncryptionUnavailable

  // ---------------------------------------------------------------------------
  // One save
  // ---------------------------------------------------------------------------

  /** value || null */
  function OrNull(s: Option<string>): Option<string> {
    if s == Some("") then None else s
  }

  /** port || 587 */
  function PortOf(port: Option<nat>): nat {
    if port.GetOr(0) == 0 then DEFAULT_PORT else port.value
  }

  function IdentityOf(row: Row): Identity {
    Identity(OrNull(row.host), PortOf(row.port), row.secure, OrNull(row.user))
  }

  /** fields.x !== undefined ? (fields.x || null) : (existing?.x ?? null) */
  function TextField(field: Field<string>, existing: Option<string>): Option<string> {
    match field
    case Absent => existing
    case Null => None
    case Value(s) => OrNull(Some(s))
  }

  /** fields.x ?? existing?.x ?? initial */
  function FlagField(field: Field<bool>, existing: bool): bool {
    if field.Value? then field.value else existing
  }

  /** Number(fields.smtp_port), where Number(null) is 0, or the existing port, or 587. */
  function PortField(field: Field<nat>, existing: Option<nat>): nat {
    match field
    case Absent => existing.GetOr(DEFAULT_PORT)
    case Null => 0
    case Value(port) => port
  }

  predicate NamesPassword(fields: Fields) {
    !fields.password.NoProperty?
  }

  /** The new password is a truthy one. */
  predicate EntersPassword(fields: Fields) {
    fields.password.Password? && fields.password.text != ""
  }

  /** What the merge starts from when there is no row. */
  const BLANK := Row(true, None, None, false, None, None, None, None, NeverTested)

  function Merged(existing: Option<Row>, fields: Fields): Row {
    var before := existing.GetOr(BLANK);
    Row(FlagField(fields.enabled, before.enabled),
        TextField(fields.host, before.host),
        Some(PortField(fields.port, before.port)),
        FlagField(fields.secure, before.secure),
        TextField(fields.user, before.user),
        if EntersPassword(fields) then Some(Cipher(fields.password.text)) else if NamesPassword(fields) then None else before.password,
        TextField(fields.fromEmail, before.fromEmail),
        TextField(fields.fromName, before.fromName),
        before.test)
  }

  /** The comparison of the existing connection with the merged one. */
  predicate ConnectionChanged(existing: Option<Row>, row: Row) {
    && existing.Some? && existing.value.password.Some?
    && var before := existing.value;
       OrNull(before.host) != row.host || PortOf(before.port) != row.port.GetOr(0) || before.secure != row.secure || OrNull(before.user) != row.user
  }

  function Saved(existing: Option<Row>, fields: Fields, keyConfigured: bool): Result<Row, SaveError> {
    var row := Merged(existing, fields);
    if EntersPassword(fields) && !keyConfigured then Failure(EncryptionUnavailable)
    else if ConnectionChanged(existing, row) && !NamesPassword(fields) then Failure(PasswordNeeded)
    else Success(row)
  }

  /** INSERT of a test result: an untouched function is created disabled, with the column defaults. */
  function Tested(existing: Option<Row>, result: TestResult): Row {
    existing.GetOr(BLANK.(enabled := false, port := Some(DEFAULT_PORT))).(test := result)
  }

  // ---------------------------------------------------------------------------
  // The store
  // ---------------------------------------------------------------------------

  type Key = (OrgId, string)

  type Store = map<Key, Row>

  function At(store: Store, key: Key): Option<Row> {
    if key in store then Some(store[key]) else None
  }

  datatype Public = Public(
    enabled: bool, host: Option<string>, port: nat, secure: bool, user: Option<string>, fromEmail: Option<string>,
    fromName: Option<string>, configured: bool, hasPassword: bool, test: TestResult)

  function ToPublic(row: Row): Public {
    Public(row.enabled, OrNull(row.host), PortOf(row.port), row.secure, OrNull(row.user), OrNull(row.fromEmail), OrNull(row.fromName),
           OrNull(row.host).Some?, row.password.Some?, row.test)
  }

  class SettingsTable {
    var rows: Store

    constructor ()
      ensures rows == map[]
    {
      rows := map[];
    }

    method Upsert(org: OrgId, fn: string, fields: Fields, keyConfigured: bool) returns (r: Result<Public, SaveError>)
      modifies this
      ensures var key := (org, NormalizeFunction(fn));
              match Saved(At(old(rows), key), fields, keyConfigured)
              case Success(row) => rows == old(rows)[key := row] && r == Success(ToPublic(row))
              case Failure(e) => rows == old(rows) && r == Failure(e)
    {
      var key := (org, NormalizeFunction(fn));
      var existing := At(rows, key);
      if EntersPassword(fields) && !keyConfigured {
        return Failure(EncryptionUnavailable);
      }
      var row := Merged(existing, fields);
      if ConnectionChanged(existing, row) && !NamesPassword(fields) {
        return Failure(PasswordNeeded);
      }
      rows := rows[key := row];
      r := Success(ToPublic(row));
    }

    method RecordTestResult(org: OrgId, fn: string, result: TestResult)
      modifies this
      ensures var key := (org, NormalizeFunction(fn)); rows == old(rows)[key := Tested(At(old(rows), key), result)]
    {
      var key := (org, NormalizeFunction(fn));
      if key in rows {
        rows := rows[key := rows[key].(test := result)];
      } else {
        rows := rows[key := BLANK.(enabled := false, port := Some(DEFAULT_PORT), test := result)];
      }
    }
  }

  // ---------------------------------------------------------------------------
  // A save without a password
  // ---------------------------------------------------------------------------

  /** Text columns hold NULL rather than the empty string. */
  predicate Clean(row: Row) {
    row.host != Some("") && row.user != Some("")
  }

  /** A save that does not mention the password is refused exactly when a password is stored and the save
      would move the connection to another identity, or would leave 0 as its port. */
  lemma RefusedExactly(existing: Option<Row>, fields: Fields, keyConfigured: bool)
    requires !NamesPassword(fields) && (existing.Some? ==> Clean(existing.value))
    ensures Saved(existing, fields, keyConfigured).Failure? <==>
              existing.Some? && existing.value.password.Some?
              && (IdentityOf(Merged(existing, fields)) != IdentityOf(existing.value) || Merged(existing, fields).port == Some(0))
  {
  }

  /** What a successful save does to the password and the identity. */
  lemma SavedPassword(existing: Option<Row>, fields: Fields, keyConfigured: bool)
    requires existing.Some? ==> Clean(existing.value)
    requires Saved(existing, fields, keyConfigured).Success?
    ensures var row := Saved(existing, fields, keyConfigured).value;
            && Clean(row)
            && (NamesPassword(fields) ==> row.password == if EntersPassword(fields) then Some(Cipher(fields.password.text)) else None)
            && (!NamesPassword(fields) && row.password.Some? ==>
                  existing.Some? && row.password == existing.value.password && IdentityOf(row) == IdentityOf(existing.value))
  {
  }

  /** The comment on the contract says that undefined keeps the password, and the code clears it: a save
      whose object has the property with the value undefined always succeeds and leaves no password. */
  lemma UndefinedClears(existing: Option<Row>, fields: Fields, keyConfigured: bool)
    requires fields.password.Undefined?
    ensures Saved(existing, fields, keyConfigured).Success? && Saved(existing, fields, keyConfigured).value.password == None
    ensures Saved(existing, fields, keyConfigured) == Saved(existing, fields.(password := Password("")), keyConfigured)
  {
  }

  /** The public form tells whether a password is stored and nothing else about it. */
  lemma PublicHidesPassword(row: Row, other: Option<Cipher>)
    ensures ToPublic(row.(password := other)) == ToPublic(row) <==> (other.Some? <==> row.password.Some?)
  {
  }

  // ---------------------------------------------------------------------------
  // Runs
  // ---------------------------------------------------------------------------

  datatype Event =
    | Save(org: OrgId, fn: string, fields: Fields, keyConfigured: bool)
    | Test(org: OrgId, fn: string, result: TestResult)

  function KeyOf(e: Event): Key {
    (e.org, NormalizeFunction(e.fn))
  }

  function Do(store: Store, e: Event): Store {
    match e
    case Save(_, _, fields, keyConfigured) =>
      var saved := Saved(At(store, KeyOf(e)), fields, keyConfigured);
      if saved.Success? then store[KeyOf(e) := saved.value] else store
    case Test(_, _, result) => store[KeyOf(e) := Tested(At(store, KeyOf(e)), result)]
  }

  /** The store after the first events, from an empty table. */
  function After(events: seq<Event>): Store {
    if events == [] then map[] else Do(After(events[..|events| - 1]), events[|events| - 1])
  }

  /** A successful save of this key with the password property present. */
  predicate SetsPassword(store: Store, e: Event, key: Key) {
    e.Save? && KeyOf(e) == key && NamesPassword(e.fields) && Saved(At(store, key), e.fields, e.keyConfigured).Success?
  }

  /** Index of the last event that set the key's password. */
  function LastSet(events: seq<Event>, key: Key): (k: Option<nat>)
    ensures k.Some? ==> k.value < |events|
  {
    if events == [] then None
    else
      var front := events[..|events| - 1];
      if SetsPassword(After(front), events[|events| - 1], key) then Some(|events| - 1) else LastSet(front, key)
  }

  /** The row now holds the password of that save, for the identity that save left behind. */
  predicate HoldsFor(now: Option<Row>, password: PasswordField, then_: Option<Row>) {
    now.Some? && then_.Some? && password.Password?
    && now.value.password == Some(Cipher(password.text)) && IdentityOf(now.value) == IdentityOf(then_.value)
  }

  lemma {:induction false} RowsStayClean(events: seq<Event>, key: Key)
    ensures key in After(events) ==> Clean(After(events)[key])
  {
    if events != [] {
      var front, e := events[..|events| - 1], events[|events| - 1];
      RowsStayClean(front, key);
      if e.Save? && KeyOf(e) == key && Saved(At(After(front), key), e.fields, e.keyConfigured).Success? {
        SavedPassword(At(After(front), key), e.fields, e.keyConfigured);
      }
    }
  }

  /** In every run, a stored password is the one entered by the last save that mentioned the password, and
      the row still names the server, port, security and account that save established: a password is
      never carried over to another connection. */
  lemma {:induction false} PasswordBelongs(events: seq<Event>, key: Key)
    requires At(After(events), key).Some? && At(After(events), key).value.password.Some?
    ensures var k := LastSet(events, key);
            && k.Some? && events[k.value].Save?
            && HoldsFor(At(After(events), key), events[k.value].fields.password, At(After(events[..k.value + 1]), key))
  {
    var front, e := events[..|events| - 1], events[|events| - 1];
    RowsStayClean(front, key);
    if SetsPassword(After(front), e, key) {
      SavedPassword(At(After(front), key), e.fields, e.keyConfigured);
      assert events[..|events|] == events;
    } else {
      QuietEvent(After(front), e, key);
      PasswordBelongs(front, key);
      var k := LastSet(front, key).value;
      assert front[..k + 1] == events[..k + 1];
    }
  }

  /** An event that does not set the password leaves a stored one with its identity. */
  lemma QuietEvent(store: Store, e: Event, key: Key)
    requires key in store ==> Clean(store[key])
    requires !SetsPassword(store, e, key)
    requires At(Do(store, e), key).Some? && At(Do(store, e), key).value.password.Some?
    ensures key in store && Do(store, e)[key].password == store[key].password && IdentityOf(Do(store, e)[key]) == IdentityOf(store[key])
  {
    if e.Save? && KeyOf(e) == key && Saved(At(store, key), e.fields, e.keyConfigured).Success? {
      SavedPassword(At(store, key), e.fields, e.keyConfigured);
    }
  }

  // ---------------------------------------------------------------------------
  // Each column, and every other row
  // ---------------------------------------------------------------------------

  /** A text column after a save: what the body says, with nothing for the empty text, or what was there. */
  predicate TextTakes(field: Field<string>, before: Option<string>, after: Option<string>) {
    && (field == Absent ==> after == before)
    && (field == Null || field == Value("") ==> after == None)
    && (field.Value? && field.value != "" ==> after == Some(field.value))
  }

  predicate FlagTakes(field: Field<bool>, before: bool, after: bool) {
    if field.Value? then after == field.value else after == before
  }

  /** What each column starts from when there is no row. */
  predicate StartsFrom(existing: Option<Row>, before: Row) {
    if existing.Some? then before == existing.value
    else before == Row(true, None, Some(587), false, None, None, None, None, NeverTested)
  }

  /** Every column after a successful save, by itself. */
  lemma SaveExact(existing: Option<Row>, fields: Fields, keyConfigured: bool, before: Row)
    requires StartsFrom(existing, before) && Saved(existing, fields, keyConfigured).Success?
    ensures var row := Saved(existing, fields, keyConfigured).value;
            && FlagTakes(fields.enabled, before.enabled, row.enabled) && FlagTakes(fields.secure, before.secure, row.secure)
            && TextTakes(fields.host, before.host, row.host) && TextTakes(fields.user, before.user, row.user)
            && TextTakes(fields.fromEmail, before.fromEmail, row.fromEmail) && TextTakes(fields.fromName, before.fromName, row.fromName)
            && (fields.port == Absent ==> row.port == if before.port.Some? then before.port else Some(587))
            && (fields.port == Null ==> row.port == Some(0))
            && (fields.port.Value? ==> row.port == Some(fields.port.value))
            && (fields.password == NoProperty ==> row.password == before.password)
            && (fields.password == Undefined || fields.password == NullPassword || fields.password == Password("") ==> row.password == None)
            && (fields.password.Password? && fields.password.text != "" ==> row.password == Some(Cipher(fields.password.text)) && keyConfigured)
            && row.test == before.test
  {
  }

  /** Two columns or values are the same to a connection when they are equal or both empty. */
  predicate SameText(a: Option<string>, b: Option<string>) {
    a == b || ((a == None || a == Some("")) && (b == None || b == Some("")))
  }

  /** The public form column by column; an absent port reads 587. */
  lemma PublicExact(row: Row)
    ensures var public := ToPublic(row);
            && public.enabled == row.enabled && public.secure == row.secure && public.test == row.test
            && SameText(public.host, row.host) && public.host != Some("") && SameText(public.user, row.user) && public.user != Some("")
            && SameText(public.fromEmail, row.fromEmail) && public.fromEmail != Some("")
            && SameText(public.fromName, row.fromName) && public.fromName != Some("")
            && (public.port == if row.port == None || row.port == Some(0) then 587 else row.port.value)
            && (public.configured <==> row.host != None && row.host != Some("")) && (public.hasPassword <==> row.password != None)
  {
  }

  /** The row an event is about: one of the four functions by its name, and any other name means the general
      one. */
  predicate About(e: Event, org: OrgId, fn: string) {
    e.org == org && (e.fn == fn || (fn == "general" && e.fn != "support" && e.fn != "billing" && e.fn != "noc"))
  }

  /** A save or a test under one function leaves the rows of the other functions, and those of other
      organizations, alone; a test changes nothing of its own row but the result, and begins a disabled one. */
  lemma EventExact(store: Store, e: Event, org: OrgId, fn: string)
    requires fn == "general" || fn == "support" || fn == "billing" || fn == "noc"
    ensures !About(e, org, fn) ==> At(Do(store, e), (org, fn)) == At(store, (org, fn))
    ensures About(e, org, fn) && e.Save? ==>
              match Saved(At(store, (org, fn)), e.fields, e.keyConfigured)
              case Success(row) => At(Do(store, e), (org, fn)) == Some(row)
              case Failure(_) => At(Do(store, e), (org, fn)) == At(store, (org, fn))
    ensures About(e, org, fn) && e.Test? ==>
              At(Do(store, e), (org, fn))
              == Some(if (org, fn) in store then store[(org, fn)].(test := e.result)
                      else Row(false, None, Some(587), false, None, None, None, None, e.result))
  {
    hide Saved;
    assert FUNCTIONS == ["general", "support", "billing", "noc"];
    assert About(e, org, fn) <==> KeyOf(e) == (org, fn);
  }

  /** Two rows name one connection when no column of it tells them apart, an empty text being none and no port
      being 587. */
  lemma IdentityExact(a: Row, b: Row)
    ensures IdentityOf(a) == IdentityOf(b)
            <==> SameText(a.host, b.host) && SameText(a.user, b.user) && a.secure == b.secure
                 && (a.port == b.port || (a.port in {None, Some(0), Some(587)} && b.port in {None, Some(0), Some(587)}))
  {
  }

  /** A save is refused for want of a password exactly when one is stored, the body has no such property, and
      it changes the host, the port, the security or the account. */
  lemma PasswordNeededExact(row: Row, fields: Fields, keyConfigured: bool)
    requires row.password.Some? && Clean(row)
    ensures var host, user := row.host, row.user;
            Saved(Some(row), fields, keyConfigured) == Failure(PasswordNeeded)
            <==> fields.password == NoProperty
                 && (  !(fields.host == Absent || (host == None && fields.host in {Null, Value("")}) || (host.Some? && fields.host == Value(host.value)))
                    || !(fields.user == Absent || (user == None && fields.user in {Null, Value("")}) || (user.Some? && fields.user == Value(user.value)))
                    || (fields.secure.Value? && fields.secure.value != row.secure)
                    || (fields.port == Absent && row.port == Some(0))
                    || fields.port == Null
                    || (fields.port.Value? && fields.port.value != if row.port.GetOr(0) == 0 then 587 else row.port.value))
  {
  }
}
