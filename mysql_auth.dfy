/** The OTP login and the profile routes of the MySQL variant (auth.js).
    The phone-number validator (`isMobilePhone('any')`) is the parameter
    `isMobile`, token signing the parameter `sign` (payload and lifetime in
    seconds), and `now` the clock in milliseconds. The `authenticateToken`
    middleware is not part of this model: the profile routes receive the
    `req.user.user_id` it leaves, which may be undefined. */
module MysqlAuth {
  import opened Rows
  import opened Js
  import opened Http
  import opened MysqlDb

  const OtpLifetimeMillis := 5 * 60 * 1000
  const OtpCodeLength := 6
  const TokenLifetimeSeconds := 24 * 60 * 60

  /** The token payload `{ userId, role }`. */
  datatype TokenClaims = TokenClaims(userId: Value, role: Value)

  /** The `user` object of the login reply. */
  datatype LoginUser = LoginUser(userId: int, mobileNumber: Value, name: Value, role: string)

  datatype LoginBody = LoginBody(token: string, user: LoginUser)

  /** The columns `GET /profile` selects. */
  datatype ProfileRow = ProfileRow(
    userId: int, mobileNumber: Value, name: Value, gender: Value, location: Value, role: string)

  // ---------------------------------------------------------------------
  // Sending a code.

  /** `POST /send-otp` with the code `otp` that `generateOTP` produced. */
  function SendOtpStep(t: MTables, mobile: Value, otp: string, now: int, isMobile: string -> bool): MEffect<string>
  {
    if !isMobile(ValidatorText(mobile)) then MEffect(t, Fail(400, "Valid mobile number required"))
    else if HasUndefined([mobile]) then MEffect(t, Fail(500, "Failed to send OTP"))
    else
      var r := OtpRecord(t.nextOtpId, TextColumn(mobile), Text(otp), now + OtpLifetimeMillis, false, now);
      MEffect(t.(otps := t.otps + [r], nextOtpId := t.nextOtpId + 1), Ok(200, "OTP sent successfully"))
  }

  /** `Math.floor(100000 + Math.random() * 900000).toString()`: the random
      number is a choice of an integer in [100000, 999999]. The code is also
      returned, standing for what `sendOTP` passes on. */
  method SendOtp(db: MysqlDatabase, mobile: Value, now: int, isMobile: string -> bool)
    returns (reply: Reply<string>, sent: string)
    requires db.Valid()
    modifies db
    ensures db.Valid()
    ensures |sent| == OtpCodeLength && AllDigits(sent)
    ensures MEffect(db.Snapshot(), reply) == SendOtpStep(old(db.Snapshot()), mobile, sent, now, isMobile)
  {
    var n :| 100000 <= n <= 999999;
    NumeralLength(n, 5);
    sent := NatToString(n);
    SendOtpKeepsValid(db.Snapshot(), mobile, sent, now, isMobile);
    if !isMobile(ValidatorText(mobile)) {
      return Fail(400, "Valid mobile number required"), sent;
    }
    if HasUndefined([mobile]) {
      return Fail(500, "Failed to send OTP"), sent;
    }
    db.otps := db.otps + [OtpRecord(db.nextOtpId, TextColumn(mobile), Text(sent), now + OtpLifetimeMillis, false, now)];
    db.nextOtpId := db.nextOtpId + 1;
    reply := Ok(200, "OTP sent successfully");
  }

  // ---------------------------------------------------------------------
  // Verifying a code.

  /** The `WHERE` clause of the code lookup. */
  predicate Candidate(r: OtpRecord, mobile: Value, code: Value, now: int)
  {
    SameText(r.mobileNumber, mobile) && SameText(r.otpCode, code) && r.expiresAt > now && !r.isVerified
  }

  /** `... ORDER BY created_at DESC LIMIT 1` */
  function MatchingOtp(otps: seq<OtpRecord>, mobile: Value, code: Value, now: int): (r: Option<nat>)
    ensures r.None? <==> forall k :: 0 <= k < |otps| ==> !Candidate(otps[k], mobile, code, now)
    ensures r.Some? ==> r.value < |otps| && Candidate(otps[r.value], mobile, code, now)
    ensures r.Some? ==> forall k :: 0 <= k < |otps| && Candidate(otps[k], mobile, code, now) ==>
      otps[k].createdAt <= otps[r.value].createdAt
  {
    NewestIndex(otps, (r: OtpRecord) => Candidate(r, mobile, code, now), OtpCreatedAt)
  }

  /** `UPDATE otp_verification SET is_verified = TRUE WHERE id = ?` */
  function MarkVerified(otps: seq<OtpRecord>, id: int): (r: seq<OtpRecord>)
    ensures |r| == |otps|
  {
    Update(otps, (r: OtpRecord) => r.id == id, (r: OtpRecord) => r.(isVerified := true))
  }

  /** `SELECT * FROM users WHERE mobile_number = ?`, first row. */
  function AccountByMobile(accounts: seq<Account>, mobile: Value): (r: Option<nat>)
    ensures r.None? <==> forall k :: 0 <= k < |accounts| ==> !SameText(accounts[k].mobileNumber, mobile)
    ensures r.Some? ==> r.value < |accounts| && SameText(accounts[r.value].mobileNumber, mobile)
  {
    FirstIndex(accounts, (a: Account) => SameText(a.mobileNumber, mobile))
  }

  /** `UPDATE users SET is_verified = TRUE WHERE mobile_number = ?` */
  function VerifiedAccounts(accounts: seq<Account>, mobile: Value): (r: seq<Account>)
    ensures |r| == |accounts|
  {
    Update(accounts, (a: Account) => SameText(a.mobileNumber, mobile), (a: Account) => a.(isVerified := true))
  }

  /** The validators of `POST /verify-otp` both pass. */
  predicate VerifyInputValid(mobile: Value, code: Value, isMobile: string -> bool)
  {
    isMobile(ValidatorText(mobile)) && |ValidatorText(code)| == OtpCodeLength
  }

  function VerifyOtpStep(t: MTables, mobile: Value, code: Value, now: int, isMobile: string -> bool,
                         sign: (TokenClaims, int) -> string): MEffect<LoginBody>
  {
    if !VerifyInputValid(mobile, code, isMobile) then MEffect(t, Fail(400, "Invalid value"))
    else if HasUndefined([mobile, code]) then MEffect(t, Fail(500, "Login failed"))
    else match MatchingOtp(t.otps, mobile, code, now)
      case None => MEffect(t, Fail(400, "Invalid or expired OTP"))
      case Some(k) => SignIn(t.(otps := MarkVerified(t.otps, t.otps[k].id)), mobile, sign)
  }

  /** The account half of a good verification: the number's first account
      is marked verified, or a verified account is created for it, and a
      token is signed for that account. */
  function SignIn(t: MTables, mobile: Value, sign: (TokenClaims, int) -> string): MEffect<LoginBody>
  {
    match AccountByMobile(t.accounts, mobile)
    case None =>
      var a := Account(t.nextUserId, TextColumn(mobile), Null, Null, Null, "User", true);
      var user := LoginUser(a.userId, mobile, Undefined, "User");
      MEffect(t.(accounts := t.accounts + [a], nextUserId := t.nextUserId + 1),
              Ok(200, LoginBody(sign(TokenClaims(Int(user.userId), Text(user.role)), TokenLifetimeSeconds), user)))
    case Some(j) =>
      var a := t.accounts[j];
      var user := LoginUser(a.userId, a.mobileNumber, a.name, a.role);
      MEffect(t.(accounts := VerifiedAccounts(t.accounts, mobile)),
              Ok(200, LoginBody(sign(TokenClaims(Int(user.userId), Text(user.role)), TokenLifetimeSeconds), user)))
  }

  method VerifyOtp(db: MysqlDatabase, mobile: Value, code: Value, now: int, isMobile: string -> bool,
                   sign: (TokenClaims, int) -> string) returns (reply: Reply<LoginBody>)
    requires db.Valid()
    modifies db
    ensures db.Valid()
    ensures MEffect(db.Snapshot(), reply) == VerifyOtpStep(old(db.Snapshot()), mobile, code, now, isMobile, sign)
  {
    VerifyOtpKeepsValid(db.Snapshot(), mobile, code, now, isMobile, sign);
    ghost var t := db.Snapshot();
    if !VerifyInputValid(mobile, code, isMobile) {
      return Fail(400, "Invalid value");
    }
    if HasUndefined([mobile, code]) {
      return Fail(500, "Login failed");
    }
    var found := MatchingOtp(db.otps, mobile, code, now);
    if found.None? {
      return Fail(400, "Invalid or expired OTP");
    }
    db.otps := MarkVerified(db.otps, db.otps[found.value].id);
    assert db.Snapshot() == t.(otps := db.otps);
    reply := SignInAccount(db, mobile, sign);
  }

  method SignInAccount(db: MysqlDatabase, mobile: Value, sign: (TokenClaims, int) -> string) returns (reply: Reply<LoginBody>)
    modifies db
    ensures MEffect(db.Snapshot(), reply) == SignIn(old(db.Snapshot()), mobile, sign)
  {
    ghost var t := db.Snapshot();
    var existing := AccountByMobile(db.accounts, mobile);
    var user;
    if existing.None? {
      user := LoginUser(db.nextUserId, mobile, Undefined, "User");
      db.accounts := db.accounts + [Account(db.nextUserId, TextColumn(mobile), Null, Null, Null, "User", true)];
      db.nextUserId := db.nextUserId + 1;
      assert db.Snapshot() == t.(accounts := db.accounts, nextUserId := t.nextUserId + 1);
    } else {
      var a := db.accounts[existing.value];
      user := LoginUser(a.userId, a.mobileNumber, a.name, a.role);
      db.accounts := VerifiedAccounts(db.accounts, mobile);
      assert db.Snapshot() == t.(accounts := db.accounts);
    }
    reply := Ok(200, LoginBody(sign(TokenClaims(Int(user.userId), Text(user.role)), TokenLifetimeSeconds), user));
  }

  // ---------------------------------------------------------------------
  // Profile.

  /** `SELECT ... FROM users WHERE user_id = ?`, first row. */
  function AccountById(accounts: seq<Account>, userId: Value): (r: Option<nat>)
    ensures r.None? <==> forall k :: 0 <= k < |accounts| ==> !SameInt(Int(accounts[k].userId), userId)
    ensures r.Some? ==> r.value < |accounts| && SameInt(Int(accounts[r.value].userId), userId)
  {
    FirstIndex(accounts, (a: Account) => SameInt(Int(a.userId), userId))
  }

  /** `GET /profile`: `{ user: users[0] }`, which is empty when no row matched. */
  function GetProfile(t: MTables, userId: Value): Reply<Option<ProfileRow>>
  {
    if HasUndefined([userId]) then Fail(500, "Failed to get profile")
    else match AccountById(t.accounts, userId)
      case None => Ok(200, None)
      case Some(k) =>
        var a := t.accounts[k];
        Ok(200, Some(ProfileRow(a.userId, a.mobileNumber, a.name, a.gender, a.location, a.role)))
  }

  const Genders := ["Male", "Female", "Other"]

  /** The optional validators of `PUT /profile`: a field that is present
      must be at least two characters (name, location) or one of the three
      genders. */
  predicate ProfileInputValid(name: Value, gender: Value, location: Value)
  {
    (name != Undefined ==> |ValidatorText(name)| >= 2)
    && (gender != Undefined ==> ValidatorText(gender) in Genders)
    && (location != Undefined ==> |ValidatorText(location)| >= 2)
  }

  /** `UPDATE users SET name = ?, gender = ?, location = ? WHERE user_id = ?` */
  function ProfileUpdated(accounts: seq<Account>, userId: Value, name: Value, gender: Value, location: Value): (r: seq<Account>)
    ensures |r| == |accounts|
  {
    Update(accounts, (a: Account) => SameInt(Int(a.userId), userId),
           (a: Account) => a.(name := TextColumn(name), gender := TextColumn(gender), location := TextColumn(location)))
  }

  function UpdateProfileStep(t: MTables, userId: Value, name: Value, gender: Value, location: Value): MEffect<string>
  {
    if !ProfileInputValid(name, gender, location) then MEffect(t, Fail(400, "Invalid value"))
    else if HasUndefined([name, gender, location, userId]) then MEffect(t, Fail(500, "Failed to update profile"))
    else MEffect(t.(accounts := ProfileUpdated(t.accounts, userId, name, gender, location)),
                 Ok(200, "Profile updated successfully"))
  }

  method UpdateProfile(db: MysqlDatabase, userId: Value, name: Value, gender: Value, location: Value)
    returns (reply: Reply<string>)
    requires db.Valid()
    modifies db
    ensures db.Valid()
    ensures MEffect(db.Snapshot(), reply) == UpdateProfileStep(old(db.Snapshot()), userId, name, gender, location)
  {
    UpdateProfileKeepsValid(db.Snapshot(), userId, name, gender, location);
    if !ProfileInputValid(name, gender, location) {
      return Fail(400, "Invalid value");
    }
    if HasUndefined([name, gender, location, userId]) {
      return Fail(500, "Failed to update profile");
    }
    db.accounts := ProfileUpdated(db.accounts, userId, name, gender, location);
    reply := Ok(200, "Profile updated successfully");
  }

  // ---------------------------------------------------------------------
  // Properties.

  function Pow10(k: nat): nat
  {
    if k == 0 then 1 else 10 * Pow10(k - 1)
  }

  /** A number between 10^k and 10^(k+1) has k + 1 digits. */
  lemma {:induction false} NumeralLength(n: nat, k: nat)
    requires Pow10(k) <= n < Pow10(k + 1)
    ensures |NatToString(n)| == k + 1
    decreases k
  {
    if k > 0 {
      assert Pow10(k - 1) <= n / 10 < Pow10(k);
      NumeralLength(n / 10, k - 1);
    }
  }

  /** Sending a code: invalid numbers are refused with 400 and nothing
      stored; a number the validator passes but that was never sent is the
      500 of the undefined bind; otherwise the reply is a success and exactly
      one unverified row is added for that number, holding the code and
      expiring five minutes after `now`. */
  lemma SendOtpOutcome(t: MTables, mobile: Value, otp: string, now: int, isMobile: string -> bool)
    ensures !isMobile(ValidatorText(mobile)) ==>
      SendOtpStep(t, mobile, otp, now, isMobile) == MEffect(t, Fail(400, "Valid mobile number required"))
    ensures isMobile(ValidatorText(mobile)) && mobile == Undefined ==>
      SendOtpStep(t, mobile, otp, now, isMobile) == MEffect(t, Fail(500, "Failed to send OTP"))
    ensures isMobile(ValidatorText(mobile)) && mobile != Undefined ==>
      SendOtpStep(t, mobile, otp, now, isMobile).reply == Ok(200, "OTP sent successfully")
    ensures var r := SendOtpStep(t, mobile, otp, now, isMobile);
      r.reply.Ok? ==>
        isMobile(ValidatorText(mobile)) && mobile != Undefined
        && r.tables == t.(otps := r.tables.otps, nextOtpId := t.nextOtpId + 1)
        && |r.tables.otps| == |t.otps| + 1 && r.tables.otps[..|t.otps|] == t.otps
        && var row := r.tables.otps[|t.otps|];
           row.id == t.nextOtpId && ToJsString(row.mobileNumber) == ToJsString(mobile) && row.otpCode == Text(otp)
           && row.mobileNumber == TextColumn(mobile) && row.createdAt == now
           && row.expiresAt == now + 300000 && !row.isVerified
  {
    var r := SendOtpStep(t, mobile, otp, now, isMobile);
    if r.reply.Ok? {
      assert r.tables.otps == t.otps + [r.tables.otps[|t.otps|]];
    }
  }

  lemma SendOtpKeepsValid(t: MTables, mobile: Value, otp: string, now: int, isMobile: string -> bool)
    requires MTablesValid(t)
    ensures MTablesValid(SendOtpStep(t, mobile, otp, now, isMobile).tables)
  {
    var r := SendOtpStep(t, mobile, otp, now, isMobile);
    if r.reply.Ok? {
      AppendFresh(t.otps, r.tables.otps[|t.otps|], OtpRecordId, t.nextOtpId);
    }
  }

  /** Verification refuses, with 400 and no change, a code that is not six
      characters long and a code no row matches (wrong number or code,
      expired, or already used); a number that passes the validator but was
      never sent is the driver's 500. Otherwise it logs in: it succeeds
      exactly when the input passes and some unexpired, unused row matches. */
  lemma VerifyOtpRefusals(t: MTables, mobile: Value, code: Value, now: int, isMobile: string -> bool,
                          sign: (TokenClaims, int) -> string)
    ensures |ValidatorText(code)| != 6 ==>
      VerifyOtpStep(t, mobile, code, now, isMobile, sign) == MEffect(t, Fail(400, "Invalid value"))
    ensures VerifyInputValid(mobile, code, isMobile) && mobile == Undefined ==>
      VerifyOtpStep(t, mobile, code, now, isMobile, sign) == MEffect(t, Fail(500, "Login failed"))
    ensures VerifyInputValid(mobile, code, isMobile) && mobile != Undefined && (forall k :: 0 <= k < |t.otps| ==> !Candidate(t.otps[k], mobile, code, now)) ==>
      VerifyOtpStep(t, mobile, code, now, isMobile, sign) == MEffect(t, Fail(400, "Invalid or expired OTP"))
    ensures VerifyOtpStep(t, mobile, code, now, isMobile, sign).reply.Ok? <==>
      VerifyInputValid(mobile, code, isMobile) && mobile != Undefined && code != Undefined
      && exists k :: 0 <= k < |t.otps| && Candidate(t.otps[k], mobile, code, now)
  {
  }

  /** Send, then verify: the code just sent, presented for the same number
      before its five minutes are up, logs in. */
  lemma SendThenVerify(t: MTables, mobile: Value, otp: string, sentAt: int, later: int,
                       isMobile: string -> bool, sign: (TokenClaims, int) -> string)
    requires isMobile(ValidatorText(mobile)) && !Nullish(mobile)
    requires |otp| == OtpCodeLength
    requires later < sentAt + OtpLifetimeMillis
    ensures var sent := SendOtpStep(t, mobile, otp, sentAt, isMobile);
      sent.reply == Ok(200, "OTP sent successfully")
      && VerifyOtpStep(sent.tables, mobile, Text(otp), later, isMobile, sign).reply.Ok?
  {
    var sent := SendOtpStep(t, mobile, otp, sentAt, isMobile);
    SendOtpOutcome(t, mobile, otp, sentAt, isMobile);
    var row := sent.tables.otps[|t.otps|];
    assert Candidate(row, mobile, Text(otp), later);
    VerifyOtpRefusals(sent.tables, mobile, Text(otp), later, isMobile, sign);
  }

  /** A successful verification uses the newest matching row: it alone is
      marked verified, and a matching row that stays unverified is at most
      as recent. */
  lemma VerifyOtpUsesNewest(t: MTables, mobile: Value, code: Value, now: int, isMobile: string -> bool,
                            sign: (TokenClaims, int) -> string)
    requires MTablesValid(t)
    requires VerifyOtpStep(t, mobile, code, now, isMobile, sign).reply.Ok?
    ensures var k := MatchingOtp(t.otps, mobile, code, now).value;
      var after := VerifyOtpStep(t, mobile, code, now, isMobile, sign).tables.otps;
      |after| == |t.otps|
      && after[k] == t.otps[k].(isVerified := true)
      && (forall j :: 0 <= j < |t.otps| && j != k ==> after[j] == t.otps[j])
      && (forall j :: 0 <= j < |t.otps| && Candidate(t.otps[j], mobile, code, now) ==> t.otps[j].createdAt <= t.otps[k].createdAt)
  {
    var k := MatchingOtp(t.otps, mobile, code, now).value;
    var after := VerifyOtpStep(t, mobile, code, now, isMobile, sign).tables.otps;
    assert after == MarkVerified(t.otps, t.otps[k].id);
  }

  /** A code works once: when a single row matched, verifying the same code
      again finds none. */
  lemma VerifyOtpSingleUse(t: MTables, mobile: Value, code: Value, now: int, later: int,
                           isMobile: string -> bool, sign: (TokenClaims, int) -> string)
    requires MTablesValid(t)
    requires VerifyOtpStep(t, mobile, code, now, isMobile, sign).reply.Ok?
    requires forall i, j :: (0 <= i < |t.otps| && 0 <= j < |t.otps| && Candidate(t.otps[i], mobile, code, now)
                             && Candidate(t.otps[j], mobile, code, now)) ==> i == j
    requires later >= now
    ensures var t' := VerifyOtpStep(t, mobile, code, now, isMobile, sign).tables;
      VerifyOtpStep(t', mobile, code, later, isMobile, sign) == MEffect(t', Fail(400, "Invalid or expired OTP"))
  {
    VerifyOtpUsesNewest(t, mobile, code, now, isMobile, sign);
    var t' := VerifyOtpStep(t, mobile, code, now, isMobile, sign).tables;
    var k := MatchingOtp(t.otps, mobile, code, now).value;
    assert forall j :: 0 <= j < |t'.otps| ==> !Candidate(t'.otps[j], mobile, code, later);
    VerifyOtpRefusals(t', mobile, code, later, isMobile, sign);
  }

  /** The login token carries the user's id and role and lives 24 hours;
      login touches no event, photo or booking. */
  lemma VerifyOtpToken(t: MTables, mobile: Value, code: Value, now: int, isMobile: string -> bool,
                       sign: (TokenClaims, int) -> string)
    requires VerifyOtpStep(t, mobile, code, now, isMobile, sign).reply.Ok?
    ensures var r := VerifyOtpStep(t, mobile, code, now, isMobile, sign);
      var user := r.reply.body.user;
      r.reply.body.token == sign(TokenClaims(Int(user.userId), Text(user.role)), 86400)
      && r.tables.events == t.events && r.tables.requests == t.requests && r.tables.photos == t.photos
  {
    assert TokenLifetimeSeconds == 86400;
    var r := VerifyOtpStep(t, mobile, code, now, isMobile, sign);
    match AccountByMobile(t.accounts, mobile)
    case None =>
      var user := LoginUser(t.nextUserId, mobile, Undefined, "User");
      assert r.reply == Ok(200, LoginBody(sign(TokenClaims(Int(user.userId), Text(user.role)), TokenLifetimeSeconds), user));
    case Some(j) =>
      var a := t.accounts[j];
      var user := LoginUser(a.userId, a.mobileNumber, a.name, a.role);
      assert r.reply == Ok(200, LoginBody(sign(TokenClaims(Int(user.userId), Text(user.role)), TokenLifetimeSeconds), user));
  }

  /** Login with an unknown number registers it as a verified 'User'. */
  lemma VerifyOtpRegisters(t: MTables, mobile: Value, code: Value, now: int, isMobile: string -> bool,
                           sign: (TokenClaims, int) -> string)
    requires VerifyOtpStep(t, mobile, code, now, isMobile, sign).reply.Ok?
    requires forall k :: 0 <= k < |t.accounts| ==> !SameText(t.accounts[k].mobileNumber, mobile)
    ensures var r := VerifyOtpStep(t, mobile, code, now, isMobile, sign);
      r.tables.accounts == t.accounts + [Account(t.nextUserId, TextColumn(mobile), Null, Null, Null, "User", true)]
      && r.tables.nextUserId == t.nextUserId + 1
      && r.reply.body.user == LoginUser(t.nextUserId, mobile, Undefined, "User")
  {
    assert AccountByMobile(t.accounts, mobile).None?;
  }

  /** Login with a known number adds no account, marks every account with
      that number verified, and answers with the first of them. */
  lemma VerifyOtpMarksKnown(t: MTables, mobile: Value, code: Value, now: int, isMobile: string -> bool,
                            sign: (TokenClaims, int) -> string, j: nat)
    requires VerifyOtpStep(t, mobile, code, now, isMobile, sign).reply.Ok?
    requires j < |t.accounts| && SameText(t.accounts[j].mobileNumber, mobile)
    ensures var r := VerifyOtpStep(t, mobile, code, now, isMobile, sign);
      |r.tables.accounts| == |t.accounts| && r.tables.nextUserId == t.nextUserId
      && (forall k :: 0 <= k < |t.accounts| ==>
            r.tables.accounts[k] == (if SameText(t.accounts[k].mobileNumber, mobile) then t.accounts[k].(isVerified := true) else t.accounts[k]))
      && r.reply.body.user.userId == t.accounts[AccountByMobile(t.accounts, mobile).value].userId
  {
    var first := AccountByMobile(t.accounts, mobile);
    assert first.Some?;
    var r := VerifyOtpStep(t, mobile, code, now, isMobile, sign);
    assert r.tables.accounts == VerifiedAccounts(t.accounts, mobile);
  }

  lemma VerifyOtpKeepsValid(t: MTables, mobile: Value, code: Value, now: int, isMobile: string -> bool,
                            sign: (TokenClaims, int) -> string)
    requires MTablesValid(t)
    ensures MTablesValid(VerifyOtpStep(t, mobile, code, now, isMobile, sign).tables)
  {
    var r := VerifyOtpStep(t, mobile, code, now, isMobile, sign);
    if r.reply.Ok? {
      var k := MatchingOtp(t.otps, mobile, code, now).value;
      var otps := MarkVerified(t.otps, t.otps[k].id);
      MarkVerifiedKeepsIds(t.otps, t.otps[k].id, t.nextOtpId);
      match AccountByMobile(t.accounts, mobile)
      case None =>
        var a := Account(t.nextUserId, TextColumn(mobile), Null, Null, Null, "User", true);
        assert r.tables == t.(otps := otps, accounts := t.accounts + [a], nextUserId := t.nextUserId + 1);
        AppendFresh(t.accounts, a, AccountId, t.nextUserId);
      case Some(j) =>
        assert r.tables == t.(otps := otps, accounts := VerifiedAccounts(t.accounts, mobile));
        VerifiedAccountsKeepIds(t.accounts, mobile, t.nextUserId);
    }
  }

  lemma MarkVerifiedKeepsIds(otps: seq<OtpRecord>, id: int, bound: int)
    requires Increasing(otps, OtpRecordId) && AllBelow(otps, OtpRecordId, bound)
    ensures Increasing(MarkVerified(otps, id), OtpRecordId) && AllBelow(MarkVerified(otps, id), OtpRecordId, bound)
  {
    assert forall j :: 0 <= j < |otps| ==> MarkVerified(otps, id)[j].id == otps[j].id;
  }

  lemma VerifiedAccountsKeepIds(accounts: seq<Account>, mobile: Value, bound: int)
    requires Increasing(accounts, AccountId) && AllBelow(accounts, AccountId, bound)
    ensures Increasing(VerifiedAccounts(accounts, mobile), AccountId) && AllBelow(VerifiedAccounts(accounts, mobile), AccountId, bound)
  {
    assert forall j :: 0 <= j < |accounts| ==> VerifiedAccounts(accounts, mobile)[j].userId == accounts[j].userId;
  }

  /** The profile is the caller's own account, or empty when there is none. */
  lemma GetProfileOwn(t: MTables, userId: int)
    requires MTablesValid(t)
    ensures GetProfile(t, Int(userId)).Ok?
    ensures GetProfile(t, Int(userId)).body.Some? <==> exists k :: 0 <= k < |t.accounts| && t.accounts[k].userId == userId
    ensures GetProfile(t, Int(userId)).body.Some? ==> GetProfile(t, Int(userId)).body.value.userId == userId
  {
    if exists k :: 0 <= k < |t.accounts| && t.accounts[k].userId == userId {
      var k :| 0 <= k < |t.accounts| && t.accounts[k].userId == userId;
      assert SameInt(Int(t.accounts[k].userId), Int(userId));
    }
  }

  /** The profile update: an invalid present field is a 400; an omitted
      field, or a token without a user id, reaches mysql2 as undefined and
      the update fails with 500; otherwise the reply is a success and the
      caller's account, and only it, gets all three fields. */
  lemma UpdateProfileOutcome(t: MTables, userId: Value, name: Value, gender: Value, location: Value)
    ensures !ProfileInputValid(name, gender, location) ==>
      UpdateProfileStep(t, userId, name, gender, location) == MEffect(t, Fail(400, "Invalid value"))
    ensures ProfileInputValid(name, gender, location)
            && (name == Undefined || gender == Undefined || location == Undefined || userId == Undefined) ==>
      UpdateProfileStep(t, userId, name, gender, location) == MEffect(t, Fail(500, "Failed to update profile"))
    ensures ProfileInputValid(name, gender, location)
            && name != Undefined && gender != Undefined && location != Undefined && userId != Undefined ==>
      UpdateProfileStep(t, userId, name, gender, location).reply == Ok(200, "Profile updated successfully")
    ensures var r := UpdateProfileStep(t, userId, name, gender, location);
      r.reply.Ok? ==>
        |ValidatorText(name)| >= 2 && ValidatorText(gender) in Genders && |ValidatorText(location)| >= 2
        && r.tables == t.(accounts := r.tables.accounts)
        && |r.tables.accounts| == |t.accounts|
        && forall k :: 0 <= k < |t.accounts| ==>
             r.tables.accounts[k] == (if SameInt(Int(t.accounts[k].userId), userId)
                                      then t.accounts[k].(name := TextColumn(name), gender := TextColumn(gender), location := TextColumn(location))
                                      else t.accounts[k])
  {
  }

  lemma UpdateProfileKeepsValid(t: MTables, userId: Value, name: Value, gender: Value, location: Value)
    requires MTablesValid(t)
    ensures MTablesValid(UpdateProfileStep(t, userId, name, gender, location).tables)
  {
    var r := UpdateProfileStep(t, userId, name, gender, location);
    if r.reply.Ok? {
      assert forall j :: 0 <= j < |r.tables.accounts| ==> r.tables.accounts[j].userId == t.accounts[j].userId;
    }
  }
}
