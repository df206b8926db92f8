/** The Admin document and the collection that holds it: email is required
    and unique (the collection is keyed by it), the password hash is
    required, and `otp` / `otpExpires` are optional fields. */
module AdminSchema {
  import opened JsValues
  import opened Bcrypt

  /** One admin document. `otp` holds a string when a code is pending;
      it is Undefined when never set or unset, Null when set to null. */
  datatype Account = Account(password: Digest, otp: JsValue, otpExpires: DateField)

  /** The admin collection, keyed by email. */
  type Store = map<string, Account>

  /** A freshly created document: only email and password are set. */
  function NewAccount(password: Digest): (a: Account)
    ensures a.password == password
    ensures a.otp == Undefined && a.otpExpires == NoDate
  {
    Account(password, Undefined, NoDate)
  }

  /** The code and its expiry are set together and cleared together, and a
      pending code always has the shape every issuer gives it. */
  predicate OtpConsistent(a: Account) {
    match a.otp
    case Undefined => a.otpExpires == NoDate
    case Null => a.otpExpires == NullDate
    case Str(code) => IsCode(code) && a.otpExpires.Date?
    case Num(_) => false
  }

  /** The collection invariant: no document without an email (a required
      string may not be empty) and every document consistent. */
  predicate StoreValid(admins: Store) {
    && "" !in admins
    && forall email :: email in admins ==> OtpConsistent(admins[email])
  }

  /** What the invariant guarantees of every stored document: its email is
      not empty, and its code is either pending (six digits, with a date)
      or cleared along with its expiry, to undefined or to null. */
  lemma ValidDocumentFields(admins: Store, email: string)
    requires StoreValid(admins) && email in admins
    ensures email != ""
    ensures admins[email].otp.Str? || admins[email].otp == Undefined || admins[email].otp == Null
    ensures admins[email].otp.Str? ==> IsCode(admins[email].otp.s) && admins[email].otpExpires.Date?
    ensures admins[email].otp == Undefined <==> admins[email].otpExpires == NoDate
    ensures admins[email].otp == Null <==> admins[email].otpExpires == NullDate
  {
  }

  /** `after` differs from `before` at most in the document of `email`. */
  predicate OnlyRecordChanged(before: Store, after: Store, email: string) {
    && after.Keys == before.Keys
    && forall e :: e in before && e != email ==> after[e] == before[e]
  }

  /** `new Admin({email, password}).save()`: refused when the email is
      empty (required) or already taken (unique index); otherwise exactly
      one document is added. */
  function Insert(admins: Store, email: string, account: Account): (r: Option<Store>)
    ensures r.Some? <==> email != "" && email !in admins
    ensures r.Some? ==> r.value.Keys == admins.Keys + {email} && r.value[email] == account
    ensures r.Some? ==> forall e :: e in admins ==> r.value[e] == admins[e]
  {
    if email == "" || email in admins then None else Some(admins[email := account])
  }

  /** A second insert of the same email fails, whatever the document. */
  lemma InsertTwiceFails(admins: Store, email: string, first: Account, second: Account)
    requires Insert(admins, email, first).Some?
    ensures Insert(Insert(admins, email, first).value, email, second).None?
  {
  }

  /** Inserting a fresh document keeps the collection invariant. */
  lemma InsertKeepsValid(admins: Store, email: string, password: Digest)
    requires StoreValid(admins)
    requires Insert(admins, email, NewAccount(password)).Some?
    ensures StoreValid(Insert(admins, email, NewAccount(password)).value)
  {
  }

  /** Replacing one existing document by a consistent one keeps the invariant. */
  lemma UpdateKeepsValid(admins: Store, email: string, a: Account)
    requires StoreValid(admins) && email in admins && OtpConsistent(a)
    ensures StoreValid(admins[email := a])
  {
  }
}
