/** The Express router of admin routes: register, login, generate-otp,
    verify-otp and forgot-password over the admin collection. Every route
    answers with a `success` flag and a message; the reply tag below stands
    for that message. Codes live five minutes, the code is compared before
    the expiry is tested, and a verified code is cleared by setting both
    fields to null. */
module AdminRouter {
  import opened JsValues
  import opened Bcrypt
  import opened AdminSchema

  /** 5 * 60 * 1000 milliseconds */
  const OtpLifetime: int := 300000

  datatype Reply =
    | Registered        // "Admin registered successfully"
    | AlreadyExists     // "Admin already exists"
    | AdminNotFound     // "Admin not found"
    | WrongPassword     // "Wrong password"
    | LoginSuccessful   // "Login successful"
    | OtpGenerated(otp: string)
    | InvalidOtp        // "Invalid OTP"
    | OtpExpired        // "OTP expired"
    | OtpVerified       // "OTP Verified"
    | PasswordReset     // "Password reset successful"
    | ServerError       // status 500: the save threw

  /** The reply a route gives and the collection it leaves behind. */
  datatype Step = Step(reply: Reply, admins: Store)

  /** POST /register (adminRoutes.js, lines 6-24). */
  function RegisterStep(admins: Store, email: string, password: string, salt: nat): (r: Step)
    ensures email in admins ==> r == Step(AlreadyExists, admins)
    ensures email !in admins && email == "" ==> r == Step(ServerError, admins)
    ensures email !in admins && email != "" ==>
      && r.reply == Registered
      && r.admins.Keys == admins.Keys + {email}
      && (forall e :: e in admins ==> r.admins[e] == admins[e])
      && Matches(password, r.admins[email].password)
      && r.admins[email].otp == Undefined && r.admins[email].otpExpires == NoDate
  {
    if email in admins then Step(AlreadyExists, admins)
    else match Insert(admins, email, NewAccount(Hash(password, salt)))
      case None => Step(ServerError, admins)
      case Some(saved) => Step(Registered, saved)
  }

  /** POST /login (adminRoutes.js, lines 27-41): the collection is never written. */
  function LoginReply(admins: Store, email: string, password: string): (r: Reply)
    ensures r == AdminNotFound <==> email !in admins
    ensures r == LoginSuccessful <==> email in admins && Matches(password, admins[email].password)
    ensures r == AdminNotFound || r == WrongPassword || r == LoginSuccessful
  {
    if email !in admins then AdminNotFound
    else if !Matches(password, admins[email].password) then WrongPassword
    else LoginSuccessful
  }

  /** POST /generate-otp (adminRoutes.js, lines 44-63): a fresh code replaces any pending
      one and expires five minutes from now; the code is returned. */
  function GenerateOtpStep(admins: Store, email: string, random: real, now: int): (r: Step)
    requires 0.0 <= random < 1.0
    ensures email !in admins ==> r == Step(AdminNotFound, admins)
    ensures email in admins ==>
      && r.reply == OtpGenerated(IssuedCode(random))
      && OnlyRecordChanged(admins, r.admins, email)
      && r.admins[email].password == admins[email].password
      && r.admins[email].otp == Str(IssuedCode(random))
      && r.admins[email].otpExpires == Date(now + OtpLifetime)
  {
    if email !in admins then Step(AdminNotFound, admins)
    else
      var code := IssuedCode(random);
      Step(OtpGenerated(code), admins[email := admins[email].(otp := Str(code), otpExpires := Date(now + OtpLifetime))])
  }

  /** POST /verify-otp (adminRoutes.js, lines 66-86): `admin.otp !== otp` is tested first,
      then `Date.now() > admin.otpExpires`; success nulls both fields and
      leaves the password alone. */
  function VerifyOtpStep(admins: Store, email: string, otp: JsValue, now: int): (r: Step)
    ensures email !in admins ==> r == Step(AdminNotFound, admins)
    ensures email in admins ==> (r.reply == InvalidOtp <==> admins[email].otp != otp)
    ensures email in admins ==>
      (r.reply == OtpExpired <==> admins[email].otp == otp && ExpiredBy(admins[email].otpExpires, now))
    ensures email in admins && admins[email].otp == otp && !ExpiredBy(admins[email].otpExpires, now) ==>
      r.reply == OtpVerified
    ensures r.reply != OtpVerified ==> r.admins == admins
    ensures r.reply == OtpVerified ==>
      && email in admins
      && OnlyRecordChanged(admins, r.admins, email)
      && r.admins[email] == Account(admins[email].password, Null, NullDate)
  {
    if email !in admins then Step(AdminNotFound, admins)
    else
      var admin := admins[email];
      if admin.otp != otp then Step(InvalidOtp, admins)
      else if ExpiredBy(admin.otpExpires, now) then Step(OtpExpired, admins)
      else Step(OtpVerified, admins[email := admin.(otp := Null, otpExpires := NullDate)])
  }

  /** POST /forgot-password (adminRoutes.js, lines 89-105): the password of any existing
      account is replaced, with no code asked for; the code fields stay. */
  function ForgotPasswordStep(admins: Store, email: string, newPassword: string, salt: nat): (r: Step)
    ensures email !in admins ==> r == Step(AdminNotFound, admins)
    ensures email in admins ==>
      && r.reply == PasswordReset
      && OnlyRecordChanged(admins, r.admins, email)
      && Matches(newPassword, r.admins[email].password)
      && r.admins[email].otp == admins[email].otp
      && r.admins[email].otpExpires == admins[email].otpExpires
  {
    if email !in admins then Step(AdminNotFound, admins)
    else Step(PasswordReset, admins[email := admins[email].(password := Hash(newPassword, salt))])
  }

  // ---------------------------------------------------------------------
  // Properties of the routes

  /** Every route keeps the collection invariant. */
  lemma RoutesKeepStoreValid(admins: Store, email: string, password: string, salt: nat,
                             random: real, otp: JsValue, now: int)
    requires StoreValid(admins)
    requires 0.0 <= random < 1.0
    ensures StoreValid(RegisterStep(admins, email, password, salt).admins)
    ensures StoreValid(GenerateOtpStep(admins, email, random, now).admins)
    ensures StoreValid(VerifyOtpStep(admins, email, otp, now).admins)
    ensures StoreValid(ForgotPasswordStep(admins, email, password, salt).admins)
  {
    if email in admins {
      UpdateKeepsValid(admins, email, GenerateOtpStep(admins, email, random, now).admins[email]);
    }
  }

  /** Registering and then logging in with the same password succeeds;
      registering the same email again is refused and changes nothing. */
  lemma RegisterThenLogin(admins: Store, email: string, password: string, salt: nat,
                          again: string, salt': nat)
    requires email != "" && email !in admins
    ensures var s := RegisterStep(admins, email, password, salt).admins;
      && LoginReply(s, email, password) == LoginSuccessful
      && RegisterStep(s, email, again, salt') == Step(AlreadyExists, s)
  {
  }

  /** A generated code verifies once within five minutes (the last instant
      included); the same code is then an invalid OTP. */
  lemma GeneratedCodeVerifiesOnce(admins: Store, email: string, random: real,
                                  issued: int, now: int, later: int)
    requires email in admins
    requires 0.0 <= random < 1.0
    requires issued <= now <= issued + OtpLifetime
    ensures var code := Str(IssuedCode(random));
      var s1 := GenerateOtpStep(admins, email, random, issued).admins;
      var s2 := VerifyOtpStep(s1, email, code, now);
      && s2.reply == OtpVerified
      && s2.admins[email].password == admins[email].password
      && VerifyOtpStep(s2.admins, email, code, later) == Step(InvalidOtp, s2.admins)
  {
  }

  /** A wrong attempt leaves the code pending: the right code still verifies
      afterwards within the window. "000000" is never a right code. */
  lemma WrongAttemptThenRightCode(admins: Store, email: string, random: real,
                                  issued: int, first: int, second: int)
    requires email in admins
    requires 0.0 <= random < 1.0
    requires issued <= first && issued <= second <= issued + OtpLifetime
    ensures var s1 := GenerateOtpStep(admins, email, random, issued).admins;
      var wrong := VerifyOtpStep(s1, email, Str("000000"), first);
      && wrong == Step(InvalidOtp, s1)
      && VerifyOtpStep(wrong.admins, email, Str(IssuedCode(random)), second).reply == OtpVerified
  {
  }

  /** Past the window the right code answers "OTP expired" and nothing
      changes, while a wrong code still answers "Invalid OTP": the code is
      compared first. */
  lemma ExpiredCodeReplies(admins: Store, email: string, random: real,
                           issued: int, now: int, wrong: JsValue)
    requires email in admins
    requires 0.0 <= random < 1.0
    requires now > issued + OtpLifetime
    requires wrong != Str(IssuedCode(random))
    ensures var s1 := GenerateOtpStep(admins, email, random, issued).admins;
      && VerifyOtpStep(s1, email, Str(IssuedCode(random)), now) == Step(OtpExpired, s1)
      && VerifyOtpStep(s1, email, wrong, now) == Step(InvalidOtp, s1)
  {
  }

  /** A document that never had a code, verified with no code supplied,
      passes both tests (`undefined !== undefined` and `now > undefined`
      are false) and is verified; its fields are then null, so the same
      request afterwards is an invalid OTP. */
  lemma NeverIssuedCodeVerifiesOnce(admins: Store, email: string, now: int, later: int)
    requires email in admins
    requires admins[email].otp == Undefined && admins[email].otpExpires == NoDate
    ensures var s := VerifyOtpStep(admins, email, Undefined, now);
      && s.reply == OtpVerified
      && VerifyOtpStep(s.admins, email, Undefined, later) == Step(InvalidOtp, s.admins)
  {
  }

  /** Codes are compared as strings: a code sent as a JSON number never
      matches, since no document holds a number. */
  lemma NumericCodeNeverMatches(admins: Store, email: string, n: int, now: int)
    requires StoreValid(admins) && email in admins
    ensures VerifyOtpStep(admins, email, Num(n), now) == Step(InvalidOtp, admins)
  {
  }

  /** forgot-password needs no code: afterwards the new password logs in,
      and another password is refused exactly when bcrypt tells it apart
      from the new one (its first 72 characters differ). */
  lemma ResetWithoutCode(admins: Store, email: string, newPassword: string, salt: nat, other: string)
    requires email in admins
    ensures var s := ForgotPasswordStep(admins, email, newPassword, salt).admins;
      && LoginReply(s, email, newPassword) == LoginSuccessful
      && (LoginReply(s, email, other) == WrongPassword <==> Key(other) != Key(newPassword))
  {
  }

  /** The router over one admin collection; each method is one route. */
  class Router {
    var admins: Store

    ghost predicate Valid()
      reads this
    {
      StoreValid(admins)
    }

    constructor ()
      ensures Valid() && admins == map[]
    {
      admins := map[];
    }

    method Register(email: string, password: string, salt: nat) returns (reply: Reply)
      requires Valid()
      modifies this
      ensures Valid()
      ensures Step(reply, admins) == RegisterStep(old(admins), email, password, salt)
    {
      if email in admins {
        return AlreadyExists;
      }
      var hashed := Hash(password, salt);
      var saved := Insert(admins, email, NewAccount(hashed));
      if saved.None? {
        return ServerError;
      }
      InsertKeepsValid(admins, email, hashed);
      admins := saved.value;
      reply := Registered;
    }

    method Login(email: string, password: string) returns (reply: Reply)
      requires Valid()
      ensures reply == LoginReply(admins, email, password)
      ensures reply == LoginSuccessful <==> email in admins && Matches(password, admins[email].password)
    {
      if email !in admins {
        return AdminNotFound;
      }
      var admin := admins[email];
      var matched := Matches(password, admin.password);
      if !matched {
        return WrongPassword;
      }
      reply := LoginSuccessful;
    }

    method GenerateOtp(email: string, random: real, now: int) returns (reply: Reply)
      requires Valid()
      requires 0.0 <= random < 1.0
      modifies this
      ensures Valid()
      ensures Step(reply, admins) == GenerateOtpStep(old(admins), email, random, now)
    {
      if email !in admins {
        return AdminNotFound;
      }
      var admin := admins[email];
      var otp := IssuedCode(random);
      var expiry := now + OtpLifetime;
      admin := admin.(otp := Str(otp));
      admin := admin.(otpExpires := Date(expiry));
      UpdateKeepsValid(admins, email, admin);
      admins := admins[email := admin];
      reply := OtpGenerated(otp);
    }

    method VerifyOtp(email: string, otp: JsValue, now: int) returns (reply: Reply)
      requires Valid()
      modifies this
      ensures Valid()
      ensures Step(reply, admins) == VerifyOtpStep(old(admins), email, otp, now)
    {
      if email !in admins {
        return AdminNotFound;
      }
      var admin := admins[email];
      if admin.otp != otp {
        return InvalidOtp;
      }
      if ExpiredBy(admin.otpExpires, now) {
        return OtpExpired;
      }
      admin := admin.(otp := Null);
      admin := admin.(otpExpires := NullDate);
      admins := admins[email := admin];
      reply := OtpVerified;
    }

    method ForgotPassword(email: string, newPassword: string, salt: nat) returns (reply: Reply)
      requires Valid()
      modifies this
      ensures Valid()
      ensures Step(reply, admins) == ForgotPasswordStep(old(admins), email, newPassword, salt)
    {
      if email !in admins {
        return AdminNotFound;
      }
      var admin := admins[email];
      var hashed := Hash(newPassword, salt);
      admin := admin.(password := hashed);
      admins := admins[email := admin];
      reply := PasswordReset;
    }
  }
}
