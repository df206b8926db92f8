/** The admin handlers mounted directly on the Express app: the bearer-token
    gate in front of the protected routes, register, login (which issues a
    seven-day token), forgot-password (which stores a ten-minute code and
    mails it) and verify-otp (which checks the code and resets the
    password). Failures answer with 4xx or 500; the reply tag below stands
    for the status and message. */
module ServerAuth {
  import opened JsValues
  import opened Bcrypt
  import opened AdminSchema

  /** 10 * 60 * 1000 milliseconds */
  const OtpLifetime: int := 600000

  /** `expiresIn: "7d"`, in seconds as token claims count time. */
  const TokenLifetime: int := 604800

  /** The payload of a session token: the admin it names, when it was
      issued and when it expires, both in whole seconds. The admin is named
      by email. */
  datatype Claims = Claims(id: string, iat: int, exp: int)

  // ---------------------------------------------------------------------
  // The verifyToken gate (server.js, lines 68-79)

  datatype GateResult =
    | NotAuthorized        // 403 "Not Authorized"
    | InvalidToken         // 403 "Invalid Token"
    | Admitted(claims: Claims)

  /** `req.headers.authorization?.split(" ")[1]` */
  function BearerToken(header: Option<string>): (t: JsValue)
    ensures t == Undefined || t.Str?
    ensures t.Str? ==> ' ' !in t.s
  {
    match header
    case None => Undefined
    case Some(h) =>
      var parts := Split(h, ' ');
      if |parts| < 2 then Undefined else Str(parts[1])
  }

  /** The gate: with no token, or an empty one, the request is refused
      before the signature is looked at; otherwise `jwtVerify` (the
      library's check of signature and expiry) decides. */
  function VerifyToken(header: Option<string>, jwtVerify: string -> Option<Claims>): (g: GateResult)
    ensures header.None? ==> g == NotAuthorized
    ensures g == NotAuthorized <==> Falsy(BearerToken(header))
    ensures g.Admitted? ==> jwtVerify(BearerToken(header).s) == Some(g.claims)
    ensures g == InvalidToken ==> jwtVerify(BearerToken(header).s) == None
  {
    var token := BearerToken(header);
    if Falsy(token) then NotAuthorized
    else match jwtVerify(token.s)
      case None => InvalidToken
      case Some(claims) => Admitted(claims)
  }

  /** "Bearer <token>", with or without more space-separated words after
      it: the token is exactly the word after the first space. */
  lemma {:induction false} BearerTokenIsSecondWord(scheme: string, token: string, rest: string)
    requires ' ' !in scheme && ' ' !in token
    requires rest == [] || rest[0] == ' '
    ensures BearerToken(Some(scheme + " " + token + rest)) == Str(token)
  {
    assert scheme + " " + token + rest == scheme + [' '] + (token + rest);
    SplitAfterPiece(scheme, ' ', token + rest);
    if rest == [] {
      assert token + rest == token;
      SplitWhole(token, ' ');
    } else {
      assert token + rest == token + [' '] + rest[1..];
      SplitAfterPiece(token, ' ', rest[1..]);
    }
  }

  /** A well-formed header is admitted exactly when the library accepts its
      token, and carries the claims the library decoded. */
  lemma WellFormedHeaderGate(scheme: string, token: string, rest: string,
                             jwtVerify: string -> Option<Claims>)
    requires ' ' !in scheme && ' ' !in token && token != ""
    requires rest == [] || rest[0] == ' '
    ensures var g := VerifyToken(Some(scheme + " " + token + rest), jwtVerify);
      && (jwtVerify(token).None? ==> g == InvalidToken)
      && (jwtVerify(token).Some? ==> g == Admitted(jwtVerify(token).value))
  {
    BearerTokenIsSecondWord(scheme, token, rest);
  }

  /** A header with no space in it, or with two spaces right after the
      scheme, has no token and is refused as not authorized. */
  lemma MalformedHeadersRefused(word: string, tail: string, jwtVerify: string -> Option<Claims>)
    requires ' ' !in word
    ensures VerifyToken(Some(word), jwtVerify) == NotAuthorized
    ensures VerifyToken(Some(word + "  " + tail), jwtVerify) == NotAuthorized
  {
    SplitWhole(word, ' ');
    assert word + "  " + tail == word + [' '] + ([' '] + tail);
    SplitAfterPiece(word, ' ', [' '] + tail);
    SplitAfterPiece([], ' ', tail);
    assert [] + [' '] + tail == [' '] + tail;
  }

  // ---------------------------------------------------------------------
  // Admin handlers

  datatype Reply =
    | AdminCreated         // "Admin Created!"
    | InvalidCredentials   // 401 "Invalid credentials"
    | LoggedIn(claims: Claims)
    | AdminNotFound        // 404 "Admin not found"
    | OtpSent              // "OTP sent!"
    | OtpExpired           // 400 "OTP expired"
    | InvalidOtp           // 400 "Invalid OTP"
    | PasswordUpdated      // "Password updated!"
    | ServerError          // 500: a save or the mail transport threw

  datatype Step = Step(reply: Reply, admins: Store)

  /** POST /api/admin/register (server.js, lines 97-108): no lookup first; a taken or
      empty email makes the save throw. */
  function RegisterStep(admins: Store, email: string, password: string, salt: nat): (r: Step)
    ensures r.reply == AdminCreated <==> email != "" && email !in admins
    ensures r.reply != AdminCreated ==> r == Step(ServerError, admins)
    ensures r.reply == AdminCreated ==>
      && r.admins.Keys == admins.Keys + {email}
      && (forall e :: e in admins ==> r.admins[e] == admins[e])
      && Matches(password, r.admins[email].password)
      && r.admins[email].otp == Undefined && r.admins[email].otpExpires == NoDate
  {
    match Insert(admins, email, NewAccount(Hash(password, salt)))
    case None => Step(ServerError, admins)
    case Some(saved) => Step(AdminCreated, saved)
  }

  /** POST /api/admin/login (server.js, lines 113-132): the token names the admin and
      expires seven days after it is issued. */
  function LoginReply(admins: Store, email: string, password: string, now: nat): (r: Reply)
    ensures r.LoggedIn? <==> email in admins && Matches(password, admins[email].password)
    ensures !r.LoggedIn? ==> r == InvalidCredentials
    ensures r.LoggedIn? ==> r.claims.id == email && r.claims.iat * 1000 <= now < r.claims.iat * 1000 + 1000
    ensures r.LoggedIn? ==> r.claims.exp - r.claims.iat == TokenLifetime
  {
    if email !in admins || !Matches(password, admins[email].password) then InvalidCredentials
    else
      var iat := now / 1000;
      LoggedIn(Claims(email, iat, iat + TokenLifetime))
  }

  /** POST /api/admin/forgot-password (server.js, lines 137-162): the code and its
      expiry are saved before the mail goes out, so a mail failure answers
      500 with the code already stored. */
  function ForgotPasswordStep(admins: Store, email: string, random: real, now: int,
                              mailSent: bool): (r: Step)
    requires 0.0 <= random < 1.0
    ensures email !in admins ==> r == Step(AdminNotFound, admins)
    ensures email in admins ==>
      && r.reply == (if mailSent then OtpSent else ServerError)
      && OnlyRecordChanged(admins, r.admins, email)
      && r.admins[email].password == admins[email].password
      && r.admins[email].otp == Str(IssuedCode(random))
      && r.admins[email].otpExpires == Date(now + OtpLifetime)
  {
    if email !in admins then Step(AdminNotFound, admins)
    else
      var code := IssuedCode(random);
      var saved := admins[email := admins[email].(otp := Str(code), otpExpires := Date(now + OtpLifetime))];
      Step(if mailSent then OtpSent else ServerError, saved)
  }

  /** POST /api/admin/verify-otp (server.js, lines 167-190): "no code or expired" is
      tested before the code is compared; success stores the new password's
      hash and unsets both code fields. */
  function VerifyOtpStep(admins: Store, email: string, otp: JsValue, newPassword: string,
                         salt: nat, now: int): (r: Step)
    ensures email !in admins ==> r == Step(AdminNotFound, admins)
    ensures email in admins ==>
      (r.reply == OtpExpired <==> Falsy(admins[email].otp) || ExpiredBy(admins[email].otpExpires, now))
    ensures email in admins ==>
      (r.reply == InvalidOtp <==>
         !Falsy(admins[email].otp) && !ExpiredBy(admins[email].otpExpires, now) && admins[email].otp != otp)
    ensures email in admins ==>
      (admins[email].otp == otp && !Falsy(otp) && !ExpiredBy(admins[email].otpExpires, now) ==>
         r.reply == PasswordUpdated)
    ensures r.reply != PasswordUpdated ==> r.admins == admins
    ensures r.reply == PasswordUpdated ==>
      && email in admins
      && OnlyRecordChanged(admins, r.admins, email)
      && Matches(newPassword, r.admins[email].password)
      && r.admins[email].otp == Undefined && r.admins[email].otpExpires == NoDate
  {
    if email !in admins then Step(AdminNotFound, admins)
    else
      var admin := admins[email];
      if Falsy(admin.otp) || ExpiredBy(admin.otpExpires, now) then Step(OtpExpired, admins)
      else if admin.otp != otp then Step(InvalidOtp, admins)
      else Step(PasswordUpdated, admins[email := Account(Hash(newPassword, salt), Undefined, NoDate)])
  }

  // ---------------------------------------------------------------------
  // Properties of the handlers

  /** Every handler keeps the collection invariant. */
  lemma HandlersKeepStoreValid(admins: Store, email: string, password: string, salt: nat,
                               random: real, otp: JsValue, now: int, mailSent: bool)
    requires StoreValid(admins)
    requires 0.0 <= random < 1.0
    ensures StoreValid(RegisterStep(admins, email, password, salt).admins)
    ensures StoreValid(ForgotPasswordStep(admins, email, random, now, mailSent).admins)
    ensures StoreValid(VerifyOtpStep(admins, email, otp, password, salt, now).admins)
  {
    if email in admins {
      UpdateKeepsValid(admins, email, ForgotPasswordStep(admins, email, random, now, mailSent).admins[email]);
    }
  }

  /** Registering and logging in with the same password yields a token for
      that email; a second registration of the email fails and changes
      nothing. */
  lemma RegisterThenLogin(admins: Store, email: string, password: string, salt: nat,
                          again: string, salt': nat, now: nat)
    requires email != "" && email !in admins
    ensures var s := RegisterStep(admins, email, password, salt).admins;
      && LoginReply(s, email, password, now).LoggedIn?
      && RegisterStep(s, email, again, salt') == Step(ServerError, s)
  {
  }

  /** A mailed code resets the password once within ten minutes (the last
      instant included); the same code afterwards answers "OTP expired",
      since no code is pending any more. */
  lemma MailedCodeResetsOnce(admins: Store, email: string, random: real, issued: int,
                             mailSent: bool, newPassword: string, salt: nat, now: nat,
                             later: int, another: string, salt': nat)
    requires email in admins
    requires 0.0 <= random < 1.0
    requires issued <= now <= issued + OtpLifetime
    ensures var code := Str(IssuedCode(random));
      var s1 := ForgotPasswordStep(admins, email, random, issued, mailSent).admins;
      var s2 := VerifyOtpStep(s1, email, code, newPassword, salt, now);
      && s2.reply == PasswordUpdated
      && LoginReply(s2.admins, email, newPassword, now).LoggedIn?
      && VerifyOtpStep(s2.admins, email, code, another, salt', later) == Step(OtpExpired, s2.admins)
  {
  }

  /** A wrong code leaves the pending code in place: the right code still
      resets the password afterwards within the window. "000000" is never
      the right code. */
  lemma WrongAttemptThenRightCode(admins: Store, email: string, random: real, issued: int,
                                  mailSent: bool, newPassword: string, salt: nat,
                                  first: int, second: int)
    requires email in admins
    requires 0.0 <= random < 1.0
    requires issued <= first <= issued + OtpLifetime
    requires issued <= second <= issued + OtpLifetime
    ensures var s1 := ForgotPasswordStep(admins, email, random, issued, mailSent).admins;
      var wrong := VerifyOtpStep(s1, email, Str("000000"), newPassword, salt, first);
      && wrong == Step(InvalidOtp, s1)
      && VerifyOtpStep(wrong.admins, email, Str(IssuedCode(random)), newPassword, salt, second).reply
         == PasswordUpdated
  {
  }

  /** Past the window every attempt, right or wrong, answers "OTP expired"
      and changes nothing: expiry is tested before the code. */
  lemma ExpiryCheckedFirst(admins: Store, email: string, random: real, issued: int,
                           mailSent: bool, otp: JsValue, newPassword: string, salt: nat, now: int)
    requires email in admins
    requires 0.0 <= random < 1.0
    requires now > issued + OtpLifetime
    ensures var s1 := ForgotPasswordStep(admins, email, random, issued, mailSent).admins;
      VerifyOtpStep(s1, email, otp, newPassword, salt, now) == Step(OtpExpired, s1)
  {
  }

  /** With no code pending (never issued, unset, or nulled by the router)
      every attempt answers "OTP expired", whatever code is sent. */
  lemma NoPendingCodeIsExpired(admins: Store, email: string, otp: JsValue,
                               newPassword: string, salt: nat, now: int)
    requires StoreValid(admins) && email in admins && !admins[email].otp.Str?
    ensures VerifyOtpStep(admins, email, otp, newPassword, salt, now) == Step(OtpExpired, admins)
  {
  }

  /** The admin API over the admin collection; each method is one handler. */
  class AdminApi {
    var admins: Store

    ghost predicate Valid()
      reads this
    {
      StoreValid(admins)
    }

    constructor ()
      ensures Valid() && admins == map[]
    {
      admins := map[];
    }

    method Register(email: string, password: string, salt: nat) returns (reply: Reply)
      requires Valid()
      modifies this
      ensures Valid()
      ensures Step(reply, admins) == RegisterStep(old(admins), email, password, salt)
    {
      var hashed := Hash(password, salt);
      var saved := Insert(admins, email, NewAccount(hashed));
      if saved.None? {
        return ServerError;
      }
      InsertKeepsValid(admins, email, hashed);
      admins := saved.value;
      reply := AdminCreated;
    }

    method Login(email: string, password: string, now: nat) returns (reply: Reply)
      requires Valid()
      ensures reply == LoginReply(admins, email, password, now)
      ensures reply.LoggedIn? <==> email in admins && Matches(password, admins[email].password)
    {
      if email !in admins {
        return InvalidCredentials;
      }
      var admin := admins[email];
      var matched := Matches(password, admin.password);
      if !matched {
        return InvalidCredentials;
      }
      var iat := now / 1000;
      reply := LoggedIn(Claims(email, iat, iat + TokenLifetime));
    }

    /** `mailSent` is whether the mail transport accepted the message. */
    method ForgotPassword(email: string, random: real, now: int, mailSent: bool) returns (reply: Reply)
      requires Valid()
      requires 0.0 <= random < 1.0
      modifies this
      ensures Valid()
      ensures Step(reply, admins) == ForgotPasswordStep(old(admins), email, random, now, mailSent)
    {
      if email !in admins {
        return AdminNotFound;
      }
      var admin := admins[email];
      var otp := IssuedCode(random);
      var expiry := now + OtpLifetime;
      admin := admin.(otp := Str(otp));
      admin := admin.(otpExpires := Date(expiry));
      UpdateKeepsValid(admins, email, admin);
      admins := admins[email := admin];
      if !mailSent {
        return ServerError;
      }
      reply := OtpSent;
    }

    method VerifyOtp(email: string, otp: JsValue, newPassword: string, salt: nat, now: int)
      returns (reply: Reply)
      requires Valid()
      modifies this
      ensures Valid()
      ensures Step(reply, admins) == VerifyOtpStep(old(admins), email, otp, newPassword, salt, now)
    {
      if email !in admins {
        return AdminNotFound;
      }
      var admin := admins[email];
      if Falsy(admin.otp) || ExpiredBy(admin.otpExpires, now) {
        return OtpExpired;
      }
      if admin.otp != otp {
        return InvalidOtp;
      }
      admin := admin.(password := Hash(newPassword, salt));
      admin := admin.(otp := Undefined);
      admin := admin.(otpExpires := NoDate);
      admins := admins[email := admin];
      reply := PasswordUpdated;
    }
  }
}
