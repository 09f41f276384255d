/** The OTP login routes of the SQLite variant (server/src/routes/auth.js):
    `issueToken`, `POST /request-otp`, `POST /verify-otp`, `GET /me` and
    `PUT /me/profile`.

    Oracles: `sha256` is the digest behind `hashOtp`, `sign` is `jwt.sign`
    with the server secret (payload and lifetime in seconds). Clock readings
    (`nowSeconds()`) are integer parameters, one per call the handler makes. */
module SqliteAuth {
  import opened Rows
  import opened Js
  import opened Http
  import opened OtpUtil
  import opened AccessGuard
  import opened SqliteDb

  const OtpLength: nat := 6
  const OtpTtlSeconds := 5 * 60
  const MaxAttempts := 5
  const TokenLifetimeSeconds := 2 * 60 * 60

  datatype Issued = Issued(otp: string, expiresAt: int)
  datatype UserView = UserView(id: int, mobile: string, role: string)
  datatype Login = Login(token: string, user: UserView)
  datatype ProfileView = ProfileView(name: string, gender: string, location: string)
  datatype MeBody = MeBody(user: Option<UserView>, profile: Option<ProfileView>)
  datatype Upserted = Upserted(tables: Tables, user: User)

  /** The outcome of several verify requests in a row. */
  datatype Trail = Trail(tables: Tables, replies: seq<Reply<Login>>)

  function TokenPayload(u: User): Claims
  {
    Claims(Int(u.id), Text(u.mobile), Text(u.role))
  }

  /** `issueToken(user)`: `{ id, mobile, role }` signed with a two-hour lifetime. */
  function IssueToken(sign: (Claims, int) -> string, u: User): string
  {
    sign(TokenPayload(u), TokenLifetimeSeconds)
  }

  function ViewOf(u: User): UserView
  {
    UserView(u.id, u.mobile, u.role)
  }

  /** `DELETE FROM otp_codes WHERE expires_at < ?` */
  function Sweep(codes: seq<OtpCode>, now: int): seq<OtpCode>
  {
    Filter(codes, (c: OtpCode) => !(c.expiresAt < now))
  }

  /** `SELECT * FROM otp_codes WHERE mobile = ? ORDER BY id DESC LIMIT 1` */
  function LatestCode(codes: seq<OtpCode>, mobile: string): (r: Option<nat>)
    ensures r.None? <==> forall k :: 0 <= k < |codes| ==> codes[k].mobile != mobile
    ensures r.Some? ==> r.value < |codes| && codes[r.value].mobile == mobile
    ensures r.Some? ==> forall k :: r.value < k < |codes| ==> codes[k].mobile != mobile
  {
    LastIndex(codes, (c: OtpCode) => c.mobile == mobile)
  }

  /** `UPDATE otp_codes SET attempt_count = attempt_count + 1 WHERE id = ?` */
  function BumpAttempts(codes: seq<OtpCode>, id: int): seq<OtpCode>
  {
    Update(codes, (c: OtpCode) => c.id == id, (c: OtpCode) => c.(attemptCount := c.attemptCount + 1))
  }

  /** `DELETE FROM otp_codes WHERE id = ?` */
  function DeleteCode(codes: seq<OtpCode>, id: int): seq<OtpCode>
  {
    Filter(codes, (c: OtpCode) => c.id != id)
  }

  /** `SELECT * FROM users WHERE mobile = ?` */
  function UserByMobile(users: seq<User>, mobile: string): (r: Option<nat>)
    ensures r.None? <==> forall k :: 0 <= k < |users| ==> users[k].mobile != mobile
    ensures r.Some? ==> r.value < |users| && users[r.value].mobile == mobile
    ensures r.Some? ==> forall k :: 0 <= k < r.value ==> users[k].mobile != mobile
  {
    FirstIndex(users, (u: User) => u.mobile == mobile)
  }

  /** `SELECT id, mobile, role FROM users WHERE id = ?` */
  function UserById(users: seq<User>, id: Value): (r: Option<nat>)
    ensures r.None? <==> forall k :: 0 <= k < |users| ==> Int(users[k].id) != IntegerCell(id)
    ensures r.Some? ==> r.value < |users| && Int(users[r.value].id) == IntegerCell(id)
    ensures r.Some? ==> forall k :: 0 <= k < r.value ==> Int(users[k].id) != IntegerCell(id)
  {
    FirstIndex(users, (u: User) => Int(u.id) == IntegerCell(id))
  }

  function EmptyProfile(userId: int): Profile
  {
    Profile(userId, "", "", "")
  }

  /** The user with this mobile; a new USER with an empty profile when there is none. */
  function EnsureUser(t: Tables, mobile: string): Upserted
  {
    match UserByMobile(t.users, mobile)
    case Some(j) => Upserted(t, t.users[j])
    case None =>
      var u := User(t.nextUserId, mobile, "USER");
      Upserted(t.(users := t.users + [u], nextUserId := t.nextUserId + 1,
                  profiles := t.profiles + [EmptyProfile(u.id)]), u)
  }

  /** `POST /request-otp` once the code `otp` has been drawn; `issuedAt` and
      `sweptAt` are the two `nowSeconds()` readings the handler takes. */
  function RequestOtpStep(t: Tables, sha256: string -> string, mobile: Value, otp: string,
                          issuedAt: int, sweptAt: int): Effect<Issued>
  {
    if !Truthy(mobile) then Effect(t, Fail(400, "Mobile is required"))
    else
      var expiresAt := issuedAt + OtpTtlSeconds;
      var row := OtpCode(t.nextOtpId, ToJsString(mobile), HashOtp(sha256, Text(otp)), expiresAt, 0);
      Effect(t.(otpCodes := Sweep(t.otpCodes, sweptAt) + [row], nextOtpId := t.nextOtpId + 1),
             Ok(200, Issued(otp, expiresAt)))
  }

  /** `POST /verify-otp`. */
  function VerifyOtpStep(t: Tables, sha256: string -> string, sign: (Claims, int) -> string,
                         mobile: Value, otp: Value, now: int): Effect<Login>
  {
    if !Truthy(mobile) || !Truthy(otp) then Effect(t, Fail(400, "Mobile and OTP required"))
    else
      var m := ToJsString(mobile);
      match LatestCode(t.otpCodes, m)
      case None => Effect(t, Fail(400, "OTP not found. Request again."))
      case Some(i) =>
        var row := t.otpCodes[i];
        if row.expiresAt < now then Effect(t, Fail(400, "OTP expired"))
        else if row.attemptCount >= MaxAttempts then Effect(t, Fail(429, "Too many attempts"))
        else if HashOtp(sha256, otp) != row.codeHash then
          Effect(t.(otpCodes := BumpAttempts(t.otpCodes, row.id)), Fail(400, "Invalid OTP"))
        else
          var up := EnsureUser(t, m);
          Effect(up.tables.(otpCodes := DeleteCode(up.tables.otpCodes, row.id)),
                 Ok(200, Login(IssueToken(sign, up.user), ViewOf(up.user))))
  }

  /** Verify requests for one mobile number, one after the other. */
  function VerifyAll(t: Tables, sha256: string -> string, sign: (Claims, int) -> string,
                     mobile: Value, guesses: seq<Value>, now: int): Trail
    decreases |guesses|
  {
    if guesses == [] then Trail(t, [])
    else
      var first := VerifyOtpStep(t, sha256, sign, mobile, guesses[0], now);
      var rest := VerifyAll(first.tables, sha256, sign, mobile, guesses[1..], now);
      Trail(rest.tables, [first.reply] + rest.replies)
  }

  /** `SELECT name, gender, location FROM profiles WHERE user_id = ?` */
  function ProfileIndex(profiles: seq<Profile>, userId: Value): (r: Option<nat>)
    ensures r.None? <==> forall k :: 0 <= k < |profiles| ==> Int(profiles[k].userId) != IntegerCell(userId)
    ensures r.Some? ==> r.value < |profiles| && Int(profiles[r.value].userId) == IntegerCell(userId)
    ensures r.Some? ==> forall k :: 0 <= k < r.value ==> Int(profiles[k].userId) != IntegerCell(userId)
  {
    FirstIndex(profiles, (p: Profile) => Int(p.userId) == IntegerCell(userId))
  }

  function ProfileOf(profiles: seq<Profile>, userId: Value): Option<ProfileView>
  {
    match ProfileIndex(profiles, userId)
    case None => None
    case Some(k) => Some(ProfileView(profiles[k].name, profiles[k].gender, profiles[k].location))
  }

  /** `UPDATE profiles SET name = ?, gender = ?, location = ? WHERE user_id = ?`
      with each field `|| ''`. */
  function UpdatedProfiles(profiles: seq<Profile>, userId: Value, name: Value, gender: Value, location: Value): seq<Profile>
  {
    Update(profiles, (p: Profile) => Int(p.userId) == IntegerCell(userId),
           (p: Profile) => p.(name := ToJsString(Or(name, Text(""))), gender := ToJsString(Or(gender, Text(""))),
                              location := ToJsString(Or(location, Text("")))))
  }

  /** `PUT /me/profile` for the caller `req.user`. */
  function UpdateProfileStep(t: Tables, caller: Claims, name: Value, gender: Value, location: Value): Effect<Option<ProfileView>>
  {
    var profiles := UpdatedProfiles(t.profiles, caller.id, name, gender, location);
    Effect(t.(profiles := profiles), Ok(200, ProfileOf(profiles, caller.id)))
  }

  /** `GET /me` for the caller `req.user`. */
  function MeOf(t: Tables, caller: Claims): MeBody
  {
    var user := match UserById(t.users, caller.id)
      case None => None
      case Some(j) => Some(ViewOf(t.users[j]));
    MeBody(user, ProfileOf(t.profiles, caller.id))
  }

  // ---------------------------------------------------------------------
  // The handlers, over the shared database handle.

  method RequestOtp(db: Database, sha256: string -> string, mobile: Value, issuedAt: int, sweptAt: int)
    returns (reply: Reply<Issued>)
    requires db.Valid()
    modifies db
    ensures db.Valid()
    ensures reply.Ok? <==> Truthy(mobile)
    ensures reply.Fail? ==> reply == Fail(400, "Mobile is required") && db.Snapshot() == old(db.Snapshot())
    ensures reply.Ok? ==> IsNumericCode(reply.body.otp, OtpLength)
    ensures reply.Ok? ==> Effect(db.Snapshot(), reply) == RequestOtpStep(old(db.Snapshot()), sha256, mobile, reply.body.otp, issuedAt, sweptAt)
  {
    if !Truthy(mobile) {
      return Fail(400, "Mobile is required");
    }
    var otp := GenerateNumericOtp(OtpLength);
    var expiresAt := issuedAt + OtpTtlSeconds;
    var codeHash := HashOtp(sha256, Text(otp));
    RequestOtpKeepsValid(db.Snapshot(), sha256, mobile, otp, issuedAt, sweptAt);
    db.otpCodes := Sweep(db.otpCodes, sweptAt);
    db.otpCodes := db.otpCodes + [OtpCode(db.nextOtpId, ToJsString(mobile), codeHash, expiresAt, 0)];
    db.nextOtpId := db.nextOtpId + 1;
    reply := Ok(200, Issued(otp, expiresAt));
  }

  method VerifyOtp(db: Database, sha256: string -> string, sign: (Claims, int) -> string,
                   mobile: Value, otp: Value, now: int)
    returns (reply: Reply<Login>)
    requires db.Valid()
    modifies db
    ensures db.Valid()
    ensures Effect(db.Snapshot(), reply) == VerifyOtpStep(old(db.Snapshot()), sha256, sign, mobile, otp, now)
  {
    VerifyOtpKeepsValid(db.Snapshot(), sha256, sign, mobile, otp, now);
    if !Truthy(mobile) || !Truthy(otp) {
      return Fail(400, "Mobile and OTP required");
    }
    var m := ToJsString(mobile);
    var latest := LatestCode(db.otpCodes, m);
    if latest.None? {
      return Fail(400, "OTP not found. Request again.");
    }
    var row := db.otpCodes[latest.value];
    if row.expiresAt < now {
      return Fail(400, "OTP expired");
    }
    if row.attemptCount >= MaxAttempts {
      return Fail(429, "Too many attempts");
    }
    var codeHash := HashOtp(sha256, otp);
    if codeHash != row.codeHash {
      db.otpCodes := BumpAttempts(db.otpCodes, row.id);
      return Fail(400, "Invalid OTP");
    }
    ghost var before := db.Snapshot();
    var user := UpsertUser(db, m);
    assert db.Snapshot() == EnsureUser(before, m).tables;
    db.otpCodes := DeleteCode(db.otpCodes, row.id);
    reply := Ok(200, Login(IssueToken(sign, user), ViewOf(user)));
  }

  /** The `SELECT` of the user by number; when there is none, the plain
      `INSERT INTO users (mobile, role)` of a USER, the `SELECT` that reads
      it back, and the insert of its empty profile row. */
  method UpsertUser(db: Database, m: string) returns (user: User)
    requires db.Valid()
    modifies db
    ensures db.Snapshot() == EnsureUser(old(db.Snapshot()), m).tables
    ensures user == EnsureUser(old(db.Snapshot()), m).user
  {
    ghost var up := EnsureUser(db.Snapshot(), m);
    EnsureUserFacts(db.Snapshot(), m);
    var found := UserByMobile(db.users, m);
    if found.None? {
      var created := User(db.nextUserId, m, "USER");
      UserByMobileAppend(db.users, created);
      db.users := db.users + [created];
      db.nextUserId := db.nextUserId + 1;
      found := UserByMobile(db.users, m);
      db.profiles := db.profiles + [EmptyProfile(db.users[found.value].id)];
    }
    assert db.Snapshot() == up.tables;
    user := db.users[found.value];
  }

  method UpdateProfile(db: Database, caller: Claims, name: Value, gender: Value, location: Value)
    returns (reply: Reply<Option<ProfileView>>)
    requires db.Valid()
    modifies db
    ensures db.Valid()
    ensures Effect(db.Snapshot(), reply) == UpdateProfileStep(old(db.Snapshot()), caller, name, gender, location)
  {
    UpdateProfileKeepsValid(db.Snapshot(), caller, name, gender, location);
    db.profiles := UpdatedProfiles(db.profiles, caller.id, name, gender, location);
    reply := Ok(200, ProfileOf(db.profiles, caller.id));
  }

  // ---------------------------------------------------------------------
  // Properties.

  /** A token issued at login passes `authRequired`, carrying the user's
      `{ id, mobile, role }`, provided the verifier accepts what the signer
      produces and signatures are non-empty. */
  lemma IssuedTokenAdmitted(sign: (Claims, int) -> string, verify: string -> Option<Claims>, u: User)
    requires forall c, e :: sign(c, e) != "" && verify(sign(c, e)) == Some(c)
    ensures AuthRequired(Some(BearerPrefix + IssueToken(sign, u)), verify) == Next(TokenPayload(u))
  {
    var token := IssueToken(sign, u);
    assert token != "" && verify(token) == Some(TokenPayload(u));
    assert (BearerPrefix + token)[..|BearerPrefix|] == BearerPrefix;
    assert (BearerPrefix + token)[|BearerPrefix|..] == token;
  }

  /** The sweep deletes exactly the codes that expired before `now`, for
      every mobile number, and keeps the rest in order. */
  lemma SweepKeepsUnexpired(codes: seq<OtpCode>, now: int, c: OtpCode)
    ensures c in Sweep(codes, now) <==> c in codes && c.expiresAt >= now
  {
    FilterMember(codes, (c: OtpCode) => !(c.expiresAt < now), c);
  }

  /** Without a mobile number nothing is written; otherwise the swept table
      gains one row: the next id, the number as text, the hash of the code,
      an expiry five minutes after issue and no attempts yet. */
  lemma RequestOtpOutcome(t: Tables, sha256: string -> string, mobile: Value, otp: string, issuedAt: int, sweptAt: int)
    ensures var e := RequestOtpStep(t, sha256, mobile, otp, issuedAt, sweptAt);
      (!Truthy(mobile) ==> e == Effect(t, Fail(400, "Mobile is required")))
      && (Truthy(mobile) ==>
            e.reply == Ok(200, Issued(otp, issuedAt + 300))
            && e.tables.otpCodes == Sweep(t.otpCodes, sweptAt)
                 + [OtpCode(t.nextOtpId, ToJsString(mobile), sha256(otp), issuedAt + 300, 0)]
            && e.tables == t.(otpCodes := e.tables.otpCodes, nextOtpId := t.nextOtpId + 1))
  {
  }

  lemma RequestOtpKeepsValid(t: Tables, sha256: string -> string, mobile: Value, otp: string, issuedAt: int, sweptAt: int)
    requires TablesValid(t)
    ensures TablesValid(RequestOtpStep(t, sha256, mobile, otp, issuedAt, sweptAt).tables)
  {
    var swept := Sweep(t.otpCodes, sweptAt);
    FilterIncreasing(t.otpCodes, (c: OtpCode) => !(c.expiresAt < sweptAt), OtpCodeId);
    FilterAllBelow(t.otpCodes, (c: OtpCode) => !(c.expiresAt < sweptAt), OtpCodeId, t.nextOtpId);
    AppendFresh(swept, OtpCode(t.nextOtpId, ToJsString(mobile), HashOtp(sha256, Text(otp)), issuedAt + OtpTtlSeconds, 0),
                OtpCodeId, t.nextOtpId);
  }

  /** The sweep caps nothing per number: codes requested for one number
      within their lifetime all stay in the table. */
  lemma {:induction false} UnexpiredCodesAccumulate(t: Tables, sha256: string -> string, mobile: Value,
                                                    otp: string, issuedAt: int, sweptAt: int)
    requires TablesValid(t) && Truthy(mobile)
    requires forall k :: 0 <= k < |t.otpCodes| ==> t.otpCodes[k].expiresAt >= sweptAt
    requires sweptAt <= issuedAt + OtpTtlSeconds
    ensures var after := RequestOtpStep(t, sha256, mobile, otp, issuedAt, sweptAt).tables.otpCodes;
      |after| == |t.otpCodes| + 1 && after[..|t.otpCodes|] == t.otpCodes
      && forall k :: 0 <= k < |after| ==> after[k].expiresAt >= sweptAt
  {
    FilterKeepsAll(t.otpCodes, (c: OtpCode) => !(c.expiresAt < sweptAt));
  }

  /** The verify checks run in a fixed order: a falsy number or code, then a missing row, then expiry
      (strictly before `now`, so a code is still good at its expiry second),
      then the attempt counter whatever code is sent, and only then the hash.
      None of the refusals before the hash comparison writes anything. */
  lemma VerifyCheckOrder(t: Tables, sha256: string -> string, sign: (Claims, int) -> string,
                         mobile: Value, otp: Value, now: int)
    ensures !Truthy(mobile) || !Truthy(otp) ==>
      VerifyOtpStep(t, sha256, sign, mobile, otp, now) == Effect(t, Fail(400, "Mobile and OTP required"))
    ensures Truthy(mobile) && Truthy(otp) ==>
      var e := VerifyOtpStep(t, sha256, sign, mobile, otp, now);
      match LatestCode(t.otpCodes, ToJsString(mobile))
      case None => e == Effect(t, Fail(400, "OTP not found. Request again."))
      case Some(i) =>
        (t.otpCodes[i].expiresAt < now ==> e == Effect(t, Fail(400, "OTP expired")))
        && (t.otpCodes[i].expiresAt >= now && t.otpCodes[i].attemptCount >= 5 ==>
              e == Effect(t, Fail(429, "Too many attempts")))
        && (t.otpCodes[i].expiresAt >= now && t.otpCodes[i].attemptCount < 5 ==>
              (e.reply.Ok? <==> sha256(ToJsString(otp)) == t.otpCodes[i].codeHash))
  {
  }

  /** A wrong code adds exactly one to the attempt counter of the latest row
      for that number and changes nothing else. */
  lemma WrongCodeBumpsOnlyLatest(t: Tables, sha256: string -> string, sign: (Claims, int) -> string,
                                 mobile: Value, otp: Value, now: int)
    requires TablesValid(t)
    requires VerifyOtpStep(t, sha256, sign, mobile, otp, now).reply == Fail(400, "Invalid OTP")
    ensures LatestCode(t.otpCodes, ToJsString(mobile)).Some?
    ensures var i := LatestCode(t.otpCodes, ToJsString(mobile)).value;
      var after := VerifyOtpStep(t, sha256, sign, mobile, otp, now).tables;
      after == t.(otpCodes := after.otpCodes)
      && |after.otpCodes| == |t.otpCodes|
      && after.otpCodes[i] == t.otpCodes[i].(attemptCount := t.otpCodes[i].attemptCount + 1)
      && forall k :: 0 <= k < |t.otpCodes| && k != i ==> after.otpCodes[k] == t.otpCodes[k]
  {
  }

  /** A wrong guess leaves the same row the latest for the number, one attempt further on. */
  lemma BumpKeepsLatest(codes: seq<OtpCode>, mobile: string, i: nat)
    requires Increasing(codes, OtpCodeId)
    requires LatestCode(codes, mobile) == Some(i)
    ensures var bumped := BumpAttempts(codes, codes[i].id);
      Increasing(bumped, OtpCodeId)
      && LatestCode(bumped, mobile) == Some(i)
      && bumped[i] == codes[i].(attemptCount := codes[i].attemptCount + 1)
  {
    var bumped := BumpAttempts(codes, codes[i].id);
    assert forall k :: 0 <= k < |codes| ==> bumped[k].id == codes[k].id && bumped[k].mobile == codes[k].mobile;
    LastIndexSamePattern(bumped, (c: OtpCode) => c.mobile == mobile, codes, (c: OtpCode) => c.mobile == mobile);
  }

  /** `n` wrong guesses in a row on an unexpired code that has `a` attempts,
      with `a + n <= 5`, are each refused as invalid and leave the counter at
      `a + n`. */
  lemma {:induction false} WrongGuessesCount(t: Tables, sha256: string -> string, sign: (Claims, int) -> string,
                                             mobile: Value, guesses: seq<Value>, now: int, i: nat)
    requires Increasing(t.otpCodes, OtpCodeId) && Truthy(mobile)
    requires LatestCode(t.otpCodes, ToJsString(mobile)) == Some(i)
    requires t.otpCodes[i].expiresAt >= now
    requires t.otpCodes[i].attemptCount + |guesses| <= MaxAttempts
    requires forall k :: 0 <= k < |guesses| ==>
      Truthy(guesses[k]) && HashOtp(sha256, guesses[k]) != t.otpCodes[i].codeHash
    ensures var trail := VerifyAll(t, sha256, sign, mobile, guesses, now);
      |trail.replies| == |guesses|
      && (forall k :: 0 <= k < |guesses| ==> trail.replies[k] == Fail(400, "Invalid OTP"))
      && LatestCode(trail.tables.otpCodes, ToJsString(mobile)) == Some(i)
      && trail.tables.otpCodes[i] == t.otpCodes[i].(attemptCount := t.otpCodes[i].attemptCount + |guesses|)
    decreases |guesses|
  {
    if guesses != [] {
      var bumped := t.(otpCodes := BumpAttempts(t.otpCodes, t.otpCodes[i].id));
      OneWrongGuess(t, sha256, sign, mobile, guesses[0], now, i);
      BumpKeepsLatest(t.otpCodes, ToJsString(mobile), i);
      var tail := guesses[1..];
      assert forall k :: 0 <= k < |tail| ==> tail[k] == guesses[k + 1];
      WrongGuessesCount(bumped, sha256, sign, mobile, tail, now, i);
      var rest := VerifyAll(bumped, sha256, sign, mobile, tail, now);
      var trail := VerifyAll(t, sha256, sign, mobile, guesses, now);
      assert trail == Trail(rest.tables, [Fail(400, "Invalid OTP")] + rest.replies);
      forall k | 0 <= k < |guesses| ensures trail.replies[k] == Fail(400, "Invalid OTP") {
        if k > 0 {
          assert trail.replies[k] == rest.replies[k - 1];
        }
      }
    }
  }

  /** Any run of verify requests keeps the tables' invariants. */
  lemma {:induction false} VerifyAllKeepsValid(t: Tables, sha256: string -> string, sign: (Claims, int) -> string,
                                               mobile: Value, guesses: seq<Value>, now: int)
    requires TablesValid(t)
    ensures TablesValid(VerifyAll(t, sha256, sign, mobile, guesses, now).tables)
    decreases |guesses|
  {
    if guesses != [] {
      var first := VerifyOtpStep(t, sha256, sign, mobile, guesses[0], now);
      VerifyOtpKeepsValid(t, sha256, sign, mobile, guesses[0], now);
      VerifyAllKeepsValid(first.tables, sha256, sign, mobile, guesses[1..], now);
    }
  }

  /** One wrong guess on the latest, unexpired, not yet locked row. */
  lemma OneWrongGuess(t: Tables, sha256: string -> string, sign: (Claims, int) -> string,
                      mobile: Value, guess: Value, now: int, i: nat)
    requires Truthy(mobile) && Truthy(guess)
    requires LatestCode(t.otpCodes, ToJsString(mobile)) == Some(i)
    requires t.otpCodes[i].expiresAt >= now && t.otpCodes[i].attemptCount < MaxAttempts
    requires HashOtp(sha256, guess) != t.otpCodes[i].codeHash
    ensures VerifyOtpStep(t, sha256, sign, mobile, guess, now)
         == Effect(t.(otpCodes := BumpAttempts(t.otpCodes, t.otpCodes[i].id)), Fail(400, "Invalid OTP"))
  {
  }

  /** Five wrong codes on a fresh code are refused as invalid; the sixth
      request is refused with 429 whatever code it sends, the right one included. */
  lemma SixthAttemptLockedOut(t: Tables, sha256: string -> string, sign: (Claims, int) -> string,
                              mobile: Value, guesses: seq<Value>, sixth: Value, now: int)
    requires TablesValid(t) && Truthy(mobile) && Truthy(sixth)
    requires LatestCode(t.otpCodes, ToJsString(mobile)).Some?
    requires var row := t.otpCodes[LatestCode(t.otpCodes, ToJsString(mobile)).value];
      row.expiresAt >= now && row.attemptCount == 0
      && |guesses| == 5
      && forall k :: 0 <= k < 5 ==> Truthy(guesses[k]) && HashOtp(sha256, guesses[k]) != row.codeHash
    ensures var trail := VerifyAll(t, sha256, sign, mobile, guesses, now);
      |trail.replies| == 5
      && (forall k :: 0 <= k < 5 ==> trail.replies[k] == Fail(400, "Invalid OTP"))
      && VerifyOtpStep(trail.tables, sha256, sign, mobile, sixth, now)
         == Effect(trail.tables, Fail(429, "Too many attempts"))
  {
    WrongGuessesCount(t, sha256, sign, mobile, guesses, now, LatestCode(t.otpCodes, ToJsString(mobile)).value);
  }

  lemma EnsureUserFacts(t: Tables, mobile: string)
    requires TablesValid(t)
    ensures var up := EnsureUser(t, mobile);
      up.user.mobile == mobile
      && up.tables.otpCodes == t.otpCodes
      && UserByMobile(up.tables.users, mobile).Some?
      && up.tables.users[UserByMobile(up.tables.users, mobile).value] == up.user
      && (UserByMobile(t.users, mobile).Some? ==> up.tables == t)
      && (UserByMobile(t.users, mobile).None? ==>
            up.user == User(t.nextUserId, mobile, "USER")
            && up.tables == t.(users := t.users + [up.user], nextUserId := t.nextUserId + 1,
                               profiles := t.profiles + [EmptyProfile(t.nextUserId)]))
  {
    if UserByMobile(t.users, mobile).None? {
      UserByMobileAppend(t.users, User(t.nextUserId, mobile, "USER"));
    }
  }

  lemma UserByMobileAppend(users: seq<User>, u: User)
    requires UserByMobile(users, u.mobile).None?
    ensures UserByMobile(users + [u], u.mobile) == Some(|users|)
  {
    assert (users + [u])[|users|].mobile == u.mobile;
  }

  /** The effect of a successful verification, spelled out. */
  lemma VerifyOtpSuccess(t: Tables, sha256: string -> string, sign: (Claims, int) -> string,
                         mobile: Value, otp: Value, now: int)
    requires VerifyOtpStep(t, sha256, sign, mobile, otp, now).reply.Ok?
    ensures LatestCode(t.otpCodes, ToJsString(mobile)).Some?
    ensures var up := EnsureUser(t, ToJsString(mobile));
      var id := t.otpCodes[LatestCode(t.otpCodes, ToJsString(mobile)).value].id;
      VerifyOtpStep(t, sha256, sign, mobile, otp, now)
      == Effect(up.tables.(otpCodes := DeleteCode(up.tables.otpCodes, id)),
                Ok(200, Login(IssueToken(sign, up.user), ViewOf(up.user))))
  {
  }

  lemma VerifyOtpKeepsValid(t: Tables, sha256: string -> string, sign: (Claims, int) -> string,
                            mobile: Value, otp: Value, now: int)
    requires TablesValid(t)
    ensures TablesValid(VerifyOtpStep(t, sha256, sign, mobile, otp, now).tables)
  {
    var m := ToJsString(mobile);
    if Truthy(mobile) && Truthy(otp) && LatestCode(t.otpCodes, m).Some? {
      var i := LatestCode(t.otpCodes, m).value;
      var row := t.otpCodes[i];
      if !(row.expiresAt < now) && row.attemptCount < MaxAttempts {
        if HashOtp(sha256, otp) != row.codeHash {
          BumpKeepsValid(t, m, i);
        } else {
          LoginKeepsValid(t, m, row.id);
        }
      }
    }
  }

  lemma BumpKeepsValid(t: Tables, mobile: string, i: nat)
    requires TablesValid(t)
    requires LatestCode(t.otpCodes, mobile) == Some(i)
    ensures TablesValid(t.(otpCodes := BumpAttempts(t.otpCodes, t.otpCodes[i].id)))
  {
    BumpKeepsLatest(t.otpCodes, mobile, i);
  }

  lemma LoginKeepsValid(t: Tables, mobile: string, rowId: int)
    requires TablesValid(t)
    ensures var up := EnsureUser(t, mobile);
      TablesValid(up.tables.(otpCodes := DeleteCode(up.tables.otpCodes, rowId)))
  {
    var up := EnsureUser(t, mobile);
    if UserByMobile(t.users, mobile).None? {
      AppendFresh(t.users, up.user, UserId, t.nextUserId);
      AppendFresh(t.profiles, EmptyProfile(t.nextUserId), ProfileUserId, t.nextUserId);
    }
    assert TablesValid(up.tables);
    FilterIncreasing(up.tables.otpCodes, (c: OtpCode) => c.id != rowId, OtpCodeId);
    FilterAllBelow(up.tables.otpCodes, (c: OtpCode) => c.id != rowId, OtpCodeId, t.nextOtpId);
  }

  /** Requesting a code and sending it back before it expires logs in: the
      new row is the latest for the number, unexpired, untried and its hash
      matches. The row is then deleted, so the codes table is left as the
      sweep made it, and a user with that number exists. */
  lemma RequestThenVerify(t: Tables, sha256: string -> string, sign: (Claims, int) -> string,
                          mobile: Value, otp: string, issuedAt: int, sweptAt: int, now: int)
    requires TablesValid(t) && Truthy(mobile) && otp != ""
    requires now <= issuedAt + OtpTtlSeconds
    ensures var e1 := RequestOtpStep(t, sha256, mobile, otp, issuedAt, sweptAt);
      var e2 := VerifyOtpStep(e1.tables, sha256, sign, mobile, Text(otp), now);
      e2.reply.Ok?
      && e2.tables.otpCodes == Sweep(t.otpCodes, sweptAt)
      && UserByMobile(e2.tables.users, ToJsString(mobile)).Some?
  {
    var m := ToJsString(mobile);
    var e1 := RequestOtpStep(t, sha256, mobile, otp, issuedAt, sweptAt);
    var swept := Sweep(t.otpCodes, sweptAt);
    var row := OtpCode(t.nextOtpId, m, HashOtp(sha256, Text(otp)), issuedAt + OtpTtlSeconds, 0);
    assert e1.tables.otpCodes == swept + [row];
    LatestOfAppended(swept, row);
    RequestOtpKeepsValid(t, sha256, mobile, otp, issuedAt, sweptAt);
    GoodCodeLogsIn(e1.tables, sha256, sign, mobile, Text(otp), now, |swept|);
    EnsureUserFacts(e1.tables, m);
    FilterAllBelow(t.otpCodes, (c: OtpCode) => !(c.expiresAt < sweptAt), OtpCodeId, t.nextOtpId);
    DeleteAppended(swept, row);
  }

  /** A row just appended is the latest one for its number. */
  lemma LatestOfAppended(codes: seq<OtpCode>, row: OtpCode)
    ensures LatestCode(codes + [row], row.mobile) == Some(|codes|)
  {
    assert (codes + [row])[|codes|] == row;
  }

  /** Deleting the appended row by an id above all others gives the table back. */
  lemma DeleteAppended(codes: seq<OtpCode>, row: OtpCode)
    requires AllBelow(codes, OtpCodeId, row.id)
    ensures DeleteCode(codes + [row], row.id) == codes
  {
    FilterAppend(codes, row, (c: OtpCode) => c.id != row.id);
    FilterKeepsAll(codes, (c: OtpCode) => c.id != row.id);
  }

  /** The right code on the latest row, unexpired and below the attempt limit, logs in. */
  lemma GoodCodeLogsIn(t: Tables, sha256: string -> string, sign: (Claims, int) -> string,
                       mobile: Value, otp: Value, now: int, i: nat)
    requires Truthy(mobile) && Truthy(otp)
    requires LatestCode(t.otpCodes, ToJsString(mobile)) == Some(i)
    requires t.otpCodes[i].expiresAt >= now && t.otpCodes[i].attemptCount < MaxAttempts
    requires HashOtp(sha256, otp) == t.otpCodes[i].codeHash
    ensures var up := EnsureUser(t, ToJsString(mobile));
      VerifyOtpStep(t, sha256, sign, mobile, otp, now)
      == Effect(up.tables.(otpCodes := DeleteCode(up.tables.otpCodes, t.otpCodes[i].id)),
                Ok(200, Login(IssueToken(sign, up.user), ViewOf(up.user))))
  {
  }

  /** A code is single-use: after a successful login the row it matched is gone.
      When the number had no other code, the same request sent again finds
      nothing (400 "OTP not found"). */
  lemma ReplayAfterLoginNotFound(t: Tables, sha256: string -> string, sign: (Claims, int) -> string,
                                 mobile: Value, otp: string, issuedAt: int, sweptAt: int, now: int)
    requires TablesValid(t) && Truthy(mobile) && otp != ""
    requires now <= issuedAt + OtpTtlSeconds
    requires forall k :: 0 <= k < |t.otpCodes| ==> t.otpCodes[k].mobile != ToJsString(mobile)
    ensures var e1 := RequestOtpStep(t, sha256, mobile, otp, issuedAt, sweptAt);
      var e2 := VerifyOtpStep(e1.tables, sha256, sign, mobile, Text(otp), now);
      var e3 := VerifyOtpStep(e2.tables, sha256, sign, mobile, Text(otp), now);
      e2.reply.Ok? && e3 == Effect(e2.tables, Fail(400, "OTP not found. Request again."))
  {
    RequestThenVerify(t, sha256, sign, mobile, otp, issuedAt, sweptAt, now);
    var swept := Sweep(t.otpCodes, sweptAt);
    forall k | 0 <= k < |swept| ensures swept[k].mobile != ToJsString(mobile) {
      SweepKeepsUnexpired(t.otpCodes, sweptAt, swept[k]);
    }
  }

  /** A first login creates exactly one USER with an empty profile; a later
      login for the same number creates nothing. */
  lemma LoginUpsertsUser(t: Tables, sha256: string -> string, sign: (Claims, int) -> string,
                         mobile: Value, otp: Value, now: int)
    requires TablesValid(t)
    requires VerifyOtpStep(t, sha256, sign, mobile, otp, now).reply.Ok?
    ensures var e := VerifyOtpStep(t, sha256, sign, mobile, otp, now);
      var m := ToJsString(mobile);
      var u := e.reply.body.user;
      u.mobile == m
      && (UserByMobile(t.users, m).Some? ==>
            e.tables.users == t.users && e.tables.profiles == t.profiles
            && u == ViewOf(t.users[UserByMobile(t.users, m).value]))
      && (UserByMobile(t.users, m).None? ==>
            e.tables.users == t.users + [User(t.nextUserId, m, "USER")]
            && e.tables.profiles == t.profiles + [EmptyProfile(t.nextUserId)]
            && u == UserView(t.nextUserId, m, "USER"))
  {
    EnsureUserFacts(t, ToJsString(mobile));
    VerifyOtpSuccess(t, sha256, sign, mobile, otp, now);
  }

  /** The user a first login creates sees its empty profile in `GET /me`
      under the token's payload. */
  lemma NewUserSeesEmptyProfile(t: Tables, sha256: string -> string, sign: (Claims, int) -> string,
                                mobile: Value, otp: Value, now: int)
    requires TablesValid(t)
    requires VerifyOtpStep(t, sha256, sign, mobile, otp, now).reply.Ok?
    requires UserByMobile(t.users, ToJsString(mobile)).None?
    ensures var e := VerifyOtpStep(t, sha256, sign, mobile, otp, now);
      var u := e.reply.body.user;
      MeOf(e.tables, Claims(Int(u.id), Text(u.mobile), Text(u.role))) == MeBody(Some(u), Some(ProfileView("", "", "")))
  {
    LoginUpsertsUser(t, sha256, sign, mobile, otp, now);
    var e := VerifyOtpStep(t, sha256, sign, mobile, otp, now);
    var id := t.nextUserId;
    var u := e.reply.body.user;
    assert u == UserView(id, ToJsString(mobile), "USER");
    assert e.tables.users == t.users + [User(id, ToJsString(mobile), "USER")];
    assert e.tables.profiles == t.profiles + [EmptyProfile(id)];
    FreshUserFound(t.users, User(id, ToJsString(mobile), "USER"));
    FreshProfileFound(t.profiles, id);
  }

  /** A user appended under an id above every existing one is the one `UserById` finds. */
  lemma FreshUserFound(users: seq<User>, u: User)
    requires AllBelow(users, UserId, u.id)
    ensures UserById(users + [u], Int(u.id)) == Some(|users|)
  {
    var all := users + [u];
    assert IntegerCell(Int(u.id)) == Int(u.id);
    assert forall k :: 0 <= k < |users| ==> all[k] == users[k] && UserId(users[k]) < u.id;
    assert all[|users|] == u;
  }

  lemma FreshProfileFound(profiles: seq<Profile>, id: int)
    requires AllBelow(profiles, ProfileUserId, id)
    ensures ProfileIndex(profiles + [EmptyProfile(id)], Int(id)) == Some(|profiles|)
  {
    var all := profiles + [EmptyProfile(id)];
    assert IntegerCell(Int(id)) == Int(id);
    assert forall k :: 0 <= k < |profiles| ==> all[k] == profiles[k] && ProfileUserId(profiles[k]) < id;
    assert all[|profiles|].userId == id;
  }

  /** A profile update rewrites the caller's row only, storing '' for each
      missing or empty field. */
  lemma ProfileUpdateOnlyCaller(t: Tables, caller: Claims, name: Value, gender: Value, location: Value)
    ensures var e := UpdateProfileStep(t, caller, name, gender, location);
      e.tables == t.(profiles := e.tables.profiles)
      && |e.tables.profiles| == |t.profiles|
      && forall k :: 0 <= k < |t.profiles| ==>
           e.tables.profiles[k] ==
             if Int(t.profiles[k].userId) == IntegerCell(caller.id)
             then Profile(t.profiles[k].userId, ToJsString(Or(name, Text(""))), ToJsString(Or(gender, Text(""))),
                          ToJsString(Or(location, Text(""))))
             else t.profiles[k]
    ensures !Truthy(name) && !Truthy(gender) && !Truthy(location) ==>
      forall k :: 0 <= k < |t.profiles| && Int(t.profiles[k].userId) == IntegerCell(caller.id) ==>
        UpdateProfileStep(t, caller, name, gender, location).tables.profiles[k] == EmptyProfile(t.profiles[k].userId)
  {
  }

  lemma UpdateProfileKeepsValid(t: Tables, caller: Claims, name: Value, gender: Value, location: Value)
    requires TablesValid(t)
    ensures TablesValid(UpdateProfileStep(t, caller, name, gender, location).tables)
  {
    var after := UpdateProfileStep(t, caller, name, gender, location).tables.profiles;
    assert forall k :: 0 <= k < |t.profiles| ==> after[k].userId == t.profiles[k].userId;
  }
}
