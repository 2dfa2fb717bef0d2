/** Phone-number normalisation and the one-time-password state machine of
    the backend's OTP service. The OTP table is a sequence of records; the
    SMS that carries the code is not part of this model. */
module OtpService {
  import opened Common
  import opened Types

  // ---------------------------------------------------------------------
  // Phone numbers

  /** `phone.replace(/[\s-]/g, '')`. */
  function Clean(phone: string): (r: string)
    ensures forall i :: 0 <= i < |r| ==> !IsJsSpace(r[i]) && r[i] != '-'
    ensures forall c :: c in r <==> c in phone && !IsJsSpace(c) && c != '-'
  {
    Keep(phone, (c: char) => !IsJsSpace(c) && c != '-')
  }

  lemma {:induction false} CleanClean(s: string)
    requires forall i :: 0 <= i < |s| ==> !IsJsSpace(s[i]) && s[i] != '-'
    ensures Clean(s) == s
  {
    if s != [] {
      CleanClean(s[1..]);
      assert Clean(s) == [s[0]] + Clean(s[1..]);
    }
  }

  const CountryPrefix: string := "+234"

  /** `formatPhone`: an empty number is an error; otherwise spaces and
      dashes go, a leading 0 becomes +234, and anything else that does not
      start with '+' gets +234 in front. */
  function FormatPhone(phone: string): (r: Result<string>)
    ensures phone == [] <==> r == Err("Phone number is missing")
    ensures r.Ok? ==> |r.value| >= 1 && r.value[0] == '+'
    ensures r.Ok? ==> forall i :: 0 <= i < |r.value| ==> !IsJsSpace(r.value[i]) && r.value[i] != '-'
  {
    if phone == [] then Err("Phone number is missing")
    else
      var cleaned := Clean(phone);
      var local := if |cleaned| >= 1 && cleaned[0] == '0' then CountryPrefix + cleaned[1..] else cleaned;
      Ok(if |local| >= 1 && local[0] == '+' then local else CountryPrefix + local)
  }

  /** What `formatPhone` does to a number, stated on the cleaned string. */
  lemma FormatPhoneCases(phone: string)
    requires phone != []
    ensures var c := Clean(phone);
            FormatPhone(phone) == Ok(if |c| >= 1 && c[0] == '0' then CountryPrefix + c[1..]
                                     else if |c| >= 1 && c[0] == '+' then c
                                     else CountryPrefix + c)
  {
  }

  /** Formatting a formatted number changes nothing. */
  lemma FormatPhoneIdempotent(phone: string)
    requires FormatPhone(phone).Ok?
    ensures FormatPhone(FormatPhone(phone).value) == FormatPhone(phone)
  {
    var f := FormatPhone(phone).value;
    CleanClean(f);
  }

  /** A clean number with a leading 0 trades it for the country code. */
  lemma FormatLeadingZero(phone: string)
    requires |phone| >= 1 && phone[0] == '0'
    requires forall i :: 0 <= i < |phone| ==> !IsJsSpace(phone[i]) && phone[i] != '-'
    ensures FormatPhone(phone) == Ok(CountryPrefix + phone[1..])
  {
    CleanClean(phone);
  }

  /** `/^\+234[789]\d{9}$/`. */
  predicate NigerianNumber(s: string) {
    |s| == 14 && s[..4] == CountryPrefix && s[4] in {'7', '8', '9'} && AllDigits(s[4..])
  }

  /** `validatePhoneFormat`: false for an empty number, otherwise whether
      the cleaned number has the Nigerian shape. */
  function ValidatePhoneFormat(phone: string): (b: bool)
    ensures phone == [] ==> !b
    ensures phone != [] ==> (b <==> NigerianNumber(Clean(phone)))
  {
    phone != [] && NigerianNumber(Clean(phone))
  }

  /** A number that passes validation is its own formatted form once
      cleaned: `formatPhone` only removes spaces and dashes from it. */
  lemma ValidNumberFormatsToItsCleanForm(phone: string)
    requires ValidatePhoneFormat(phone)
    ensures FormatPhone(phone) == Ok(Clean(phone))
  {
    var c := Clean(phone);
    assert c[..4][0] == '+';
  }

  /** A local number with a leading 0 and ten more digits, the first of them
      7, 8 or 9, formats to a valid number. */
  lemma LocalNumberFormatsToValid(phone: string)
    requires |phone| == 11 && phone[0] == '0' && phone[1] in {'7', '8', '9'} && AllDigits(phone)
    ensures FormatPhone(phone).Ok? && ValidatePhoneFormat(FormatPhone(phone).value)
  {
    assert forall i :: 0 <= i < |phone| ==> !IsJsSpace(phone[i]) && phone[i] != '-';
    CleanClean(phone);
    var f := FormatPhone(phone).value;
    assert f == CountryPrefix + phone[1..];
    CleanClean(f);
    assert f[4..] == phone[1..];
  }

  // ---------------------------------------------------------------------
  // One-time passwords

  const RateLimitMs: nat := 60000
  const OtpLifetimeMs: nat := 600000
  const MaxAttempts: nat := 3

  datatype OtpRecord = OtpRecord(
    id: string,
    phone: string,
    code: string,
    purpose: string,
    expiresAt: int,
    attempts: nat,
    verified: bool,
    createdAt: int
  )

  /** `generateOTP` for a draw `k` of `Math.random() * 900000` rounded
      down: a six-digit code. */
  function GenerateOtp(k: nat): (code: string)
    requires k < 900000
    ensures |code| == 6 && AllDigits(code)
    ensures 100000 <= DigitsValue(code) <= 999999
  {
    assert Pow10(5) == 100000 && Pow10(6) == 1000000;
    DecimalStringLength(100000 + k, 6);
    DecimalStringReadsBack(100000 + k);
    RandomCode(100000, k)
  }

  /** A record created for `phone` within the last minute. */
  predicate IsRecent(r: OtpRecord, phone: string, now: int) {
    r.phone == phone && r.createdAt >= now - RateLimitMs
  }

  predicate StaleFor(r: OtpRecord, phone: string) {
    r.phone == phone && !r.verified
  }

  /** `createOTP`: refused while any code for the phone is less than a
      minute old; otherwise the phone's unverified codes are deleted and a
      fresh one valid for ten minutes is stored and returned. */
  function CreateOtp(otps: seq<OtpRecord>, phone: string, purpose: string, now: int, id: string, draw: nat)
    : (r: Result<(string, seq<OtpRecord>)>)
    requires draw < 900000
    ensures r.Err? <==> exists j :: 0 <= j < |otps| && IsRecent(otps[j], phone, now)
    ensures r.Err? ==> r.msg == "Please wait before requesting another OTP"
    ensures r.Ok? ==>
              var code := r.value.0;
              var otps' := r.value.1;
              |code| == 6 && AllDigits(code)
              && |otps'| >= 1 && otps'[|otps'| - 1] == OtpRecord(id, phone, code, purpose, now + OtpLifetimeMs, 0, false, now)
              && (forall j :: 0 <= j < |otps'| - 1 ==> otps'[j] in otps && !StaleFor(otps'[j], phone))
              && (forall j :: 0 <= j < |otps| && !StaleFor(otps[j], phone) ==> otps[j] in otps')
  {
    match FindFirst(otps, (o: OtpRecord) => IsRecent(o, phone, now))
    case Some(_) => Err("Please wait before requesting another OTP")
    case None =>
      var code := GenerateOtp(draw);
      var kept := Filter(otps, (o: OtpRecord) => !StaleFor(o, phone));
      Ok((code, kept + [OtpRecord(id, phone, code, purpose, now + OtpLifetimeMs, 0, false, now)]))
  }

  predicate Pending(r: OtpRecord, phone: string, purpose: string) {
    r.phone == phone && r.purpose == purpose && !r.verified
  }

  /** `i` is the record `findFirst` with `orderBy: createdAt desc` returns:
      a pending record for (phone, purpose) created no earlier than any
      other, and the first in store order among those created at the same
      moment. */
  predicate IsNewest(otps: seq<OtpRecord>, i: nat, phone: string, purpose: string) {
    i < |otps| && Pending(otps[i], phone, purpose)
    && (forall j :: 0 <= j < |otps| && Pending(otps[j], phone, purpose) ==> otps[j].createdAt <= otps[i].createdAt)
    && (forall j :: 0 <= j < i && Pending(otps[j], phone, purpose) ==> otps[j].createdAt < otps[i].createdAt)
  }

  lemma NewestIsUnique(otps: seq<OtpRecord>, i: nat, k: nat, phone: string, purpose: string)
    requires IsNewest(otps, i, phone, purpose) && IsNewest(otps, k, phone, purpose)
    ensures i == k
  {
  }

  function Newest(otps: seq<OtpRecord>, phone: string, purpose: string): (r: Option<nat>)
    ensures r.Some? ==> IsNewest(otps, r.value, phone, purpose)
    ensures r.None? <==> forall j :: 0 <= j < |otps| ==> !Pending(otps[j], phone, purpose)
  {
    if otps == [] then None
    else
      var n := |otps| - 1;
      var front := Newest(otps[..n], phone, purpose);
      assert forall j :: 0 <= j < n ==> otps[..n][j] == otps[j];
      if !Pending(otps[n], phone, purpose) then front
      else if front.None? || otps[n].createdAt > otps[front.value].createdAt then Some(n)
      else front
  }

  /** The outcome of `verifyOTP`: the table afterwards (a wrong code still
      consumes an attempt) and the answer or the error thrown. */
  datatype Verification = Verification(otps: seq<OtpRecord>, result: Result<bool>)

  const NoOtp: string := "No OTP found for this phone number"
  const OtpExpired: string := "OTP has expired. Please request a new one."
  const OtpLocked: string := "Maximum verification attempts exceeded. Please request a new OTP."
  const OtpWrong: string := "Invalid OTP code"

  /** `verifyOTP`: on the newest pending record for (phone, purpose),
      checked in order: none, expired, three attempts used. Then the
      attempt is counted, and only a matching code marks it verified. */
  function VerifyOtp(otps: seq<OtpRecord>, phone: string, code: string, purpose: string, now: int): (v: Verification)
    ensures Newest(otps, phone, purpose).None? ==> v == Verification(otps, Err(NoOtp))
    ensures v.result.Ok? ==> v.result.value
  {
    match Newest(otps, phone, purpose)
    case None => Verification(otps, Err(NoOtp))
    case Some(i) =>
      var r := otps[i];
      if now > r.expiresAt then Verification(otps, Err(OtpExpired))
      else if r.attempts >= MaxAttempts then Verification(otps, Err(OtpLocked))
      else
        var counted := r.(attempts := r.attempts + 1);
        if r.code != code then Verification(otps[i := counted], Err(OtpWrong))
        else Verification(otps[i := counted.(verified := true)], Ok(true))
  }

  /** The order of the checks on the record that was found. */
  lemma VerifyOtpOrder(otps: seq<OtpRecord>, phone: string, code: string, purpose: string, now: int, i: nat)
    requires Newest(otps, phone, purpose) == Some(i)
    ensures var r := otps[i];
            var v := VerifyOtp(otps, phone, code, purpose, now);
            (now > r.expiresAt ==> v == Verification(otps, Err(OtpExpired)))
            && (now <= r.expiresAt && r.attempts >= MaxAttempts ==> v == Verification(otps, Err(OtpLocked)))
            && (now <= r.expiresAt && r.attempts < MaxAttempts && r.code != code ==>
                  v == Verification(otps[i := r.(attempts := r.attempts + 1)], Err(OtpWrong)))
            && (now <= r.expiresAt && r.attempts < MaxAttempts && r.code == code ==>
                  v == Verification(otps[i := r.(attempts := r.attempts + 1, verified := true)], Ok(true)))
  {
  }

  /** Counting an attempt keeps the record the newest pending one. */
  lemma NewestAfterAttempt(otps: seq<OtpRecord>, phone: string, purpose: string, i: nat)
    requires Newest(otps, phone, purpose) == Some(i)
    ensures Newest(otps[i := otps[i].(attempts := otps[i].attempts + 1)], phone, purpose) == Some(i)
  {
    var otps' := otps[i := otps[i].(attempts := otps[i].attempts + 1)];
    assert forall j :: 0 <= j < |otps| ==> otps'[j].createdAt == otps[j].createdAt
                                           && (Pending(otps'[j], phone, purpose) <==> Pending(otps[j], phone, purpose));
    assert IsNewest(otps', i, phone, purpose);
    var k := Newest(otps', phone, purpose).value;
    NewestIsUnique(otps', i, k, phone, purpose);
  }

  /** One wrong guess at an unexpired, unlocked code: the attempt is
      counted and the record stays the one to check next. */
  lemma WrongGuess(otps: seq<OtpRecord>, phone: string, purpose: string, now: int, g: string, i: nat)
    requires Newest(otps, phone, purpose) == Some(i)
    requires otps[i].attempts < MaxAttempts && now <= otps[i].expiresAt && g != otps[i].code
    ensures var v := VerifyOtp(otps, phone, g, purpose, now);
            v.result == Err(OtpWrong) && v.otps == otps[i := otps[i].(attempts := otps[i].attempts + 1)]
            && Newest(v.otps, phone, purpose) == Some(i)
  {
    NewestAfterAttempt(otps, phone, purpose, i);
  }

  /** A wrong code uses up an attempt: after three wrong guesses at an
      unexpired code, even the right code is refused. */
  lemma ThreeWrongGuessesLock(otps: seq<OtpRecord>, phone: string, purpose: string, now: int,
                              g1: string, g2: string, g3: string, i: nat)
    requires Newest(otps, phone, purpose) == Some(i)
    requires otps[i].attempts == 0 && now <= otps[i].expiresAt
    requires g1 != otps[i].code && g2 != otps[i].code && g3 != otps[i].code
    ensures var v1 := VerifyOtp(otps, phone, g1, purpose, now);
            var v2 := VerifyOtp(v1.otps, phone, g2, purpose, now);
            var v3 := VerifyOtp(v2.otps, phone, g3, purpose, now);
            v1.result == v2.result == v3.result == Err(OtpWrong)
            && VerifyOtp(v3.otps, phone, otps[i].code, purpose, now).result == Err(OtpLocked)
  {
    var r := otps[i];
    WrongGuess(otps, phone, purpose, now, g1, i);
    var o1 := VerifyOtp(otps, phone, g1, purpose, now).otps;
    assert o1[i] == r.(attempts := 1);
    WrongGuess(o1, phone, purpose, now, g2, i);
    var o2 := VerifyOtp(o1, phone, g2, purpose, now).otps;
    assert o2[i] == r.(attempts := 2);
    WrongGuess(o2, phone, purpose, now, g3, i);
    var o3 := VerifyOtp(o2, phone, g3, purpose, now).otps;
    assert o3[i] == r.(attempts := 3);
    VerifyOtpOrder(o3, phone, r.code, purpose, now, i);
  }

  /** Round trip: the code `createOTP` hands out is accepted for the same
      phone and purpose until it expires, and only once. */
  lemma CreatedCodeVerifiesOnce(otps: seq<OtpRecord>, phone: string, purpose: string, now: int, id: string,
                                draw: nat, later: int)
    requires draw < 900000
    requires CreateOtp(otps, phone, purpose, now, id, draw).Ok?
    requires later <= now + OtpLifetimeMs
    ensures var (code, otps') := CreateOtp(otps, phone, purpose, now, id, draw).value;
            var v := VerifyOtp(otps', phone, code, purpose, later);
            v.result == Ok(true) && VerifyOtp(v.otps, phone, code, purpose, later).result == Err(NoOtp)
  {
    var (code, otps') := CreateOtp(otps, phone, purpose, now, id, draw).value;
    var n := |otps'| - 1;
    assert forall j :: 0 <= j < n ==> !Pending(otps'[j], phone, purpose);
    var i := Newest(otps', phone, purpose).value;
    assert i == n;
    var v := VerifyOtp(otps', phone, code, purpose, later);
    assert forall j :: 0 <= j < |v.otps| ==> !Pending(v.otps[j], phone, purpose);
  }

  /** The rate limit: a second request for the same phone within a minute
      of a successful one is refused. */
  lemma SecondRequestWithinAMinuteFails(otps: seq<OtpRecord>, phone: string, purpose: string, purpose2: string,
                                        now: int, later: int, id: string, id2: string, draw: nat, draw2: nat)
    requires draw < 900000 && draw2 < 900000
    requires CreateOtp(otps, phone, purpose, now, id, draw).Ok?
    requires later <= now + RateLimitMs
    ensures CreateOtp(CreateOtp(otps, phone, purpose, now, id, draw).value.1, phone, purpose2, later, id2, draw2)
            == Err("Please wait before requesting another OTP")
  {
    var otps' := CreateOtp(otps, phone, purpose, now, id, draw).value.1;
    assert IsRecent(otps'[|otps'| - 1], phone, later);
  }
}
