/** Referral codes: how a code is built from a user's name and three random
    bytes, how a user gets one, and how a new user is linked to the user
    who referred them. */
module ReferralService {
  import opened Common
  import opened Types
  import opened BackendStore

  const NamePartLength: nat := 5
  const RetryLimit: nat := 10

  /** One of the sixteen characters of upper-case hexadecimal. */
  predicate IsHexUpper(c: char) {
    IsDigit(c) || 'A' <= c <= 'F'
  }

  function HexDigit(d: nat): (c: char)
    requires d < 16
    ensures IsHexUpper(c)
  {
    if d < 10 then Digit(d) else ('A' as int + (d - 10)) as char
  }

  function HexDigitValue(c: char): (d: nat)
    requires IsHexUpper(c)
    ensures d < 16
  {
    if IsDigit(c) then c as int - '0' as int else c as int - 'A' as int + 10
  }

  /** Three random bytes. */
  predicate ValidBytes(bytes: seq<nat>) {
    |bytes| == 3 && forall k :: 0 <= k < 3 ==> bytes[k] < 256
  }

  /** `bytes.toString('hex').toUpperCase()`: two digits per byte, high
      nibble first. */
  function HexUpper(bytes: seq<nat>): (r: string)
    requires forall k :: 0 <= k < |bytes| ==> bytes[k] < 256
    ensures |r| == 2 * |bytes|
    ensures forall i :: 0 <= i < |r| ==> IsHexUpper(r[i])
  {
    if bytes == [] then []
    else [HexDigit(bytes[0] / 16), HexDigit(bytes[0] % 16)] + HexUpper(bytes[1..])
  }

  /** Reading the hexadecimal back gives the bytes. */
  lemma {:induction false} HexUpperReadsBack(bytes: seq<nat>)
    requires forall k :: 0 <= k < |bytes| ==> bytes[k] < 256
    ensures forall k :: 0 <= k < |bytes| ==>
              16 * HexDigitValue(HexUpper(bytes)[2 * k]) + HexDigitValue(HexUpper(bytes)[2 * k + 1]) == bytes[k]
  {
    if bytes != [] {
      HexUpperReadsBack(bytes[1..]);
      var h := HexUpper(bytes);
      assert h[2..] == HexUpper(bytes[1..]);
      forall k | 1 <= k < |bytes|
        ensures 16 * HexDigitValue(h[2 * k]) + HexDigitValue(h[2 * k + 1]) == bytes[k]
      {
        assert h[2 * k] == HexUpper(bytes[1..])[2 * (k - 1)];
        assert h[2 * k + 1] == HexUpper(bytes[1..])[2 * (k - 1) + 1];
      }
    }
  }

  /** `name.toUpperCase().replace(/[^A-Z]/g, '').substring(0, 5)`. */
  function NamePart(name: string): (r: string)
    ensures |r| <= NamePartLength
    ensures forall i :: 0 <= i < |r| ==> IsUpper(r[i])
  {
    Take(Keep(Upper(name), IsUpper), NamePartLength)
  }

  /** `generateReferralCode`: the name part, a dash, and the bytes as six
      upper-case hexadecimal characters. */
  function GenerateReferralCode(name: string, bytes: seq<nat>): (code: string)
    requires ValidBytes(bytes)
    ensures |code| == |NamePart(name)| + 7 <= 12
    ensures code[|NamePart(name)|] == '-'
    ensures forall i :: |NamePart(name)| < i < |code| ==> IsHexUpper(code[i])
  {
    NamePart(name) + "-" + HexUpper(bytes)
  }

  /** The code splits back into its parts at its only dash. */
  lemma ReferralCodeSplits(name: string, bytes: seq<nat>)
    requires ValidBytes(bytes)
    ensures var code := GenerateReferralCode(name, bytes);
            var n := |NamePart(name)|;
            code[..n] == NamePart(name) && code[n + 1..] == HexUpper(bytes)
            && forall i :: 0 <= i < |code| && i != n ==> code[i] != '-'
  {
  }

  /** Some user already holds `code`. */
  predicate CodeTaken(db: Db, code: string) {
    exists j :: 0 <= j < |db.users| && db.users[j].referralCode == Some(code)
  }

  /** `validateReferralCode`. */
  function ValidateReferralCode(db: Db, code: string): (b: bool)
    ensures b <==> CodeTaken(db, code)
  {
    UserByReferralCode(db, code).Some?
  }

  /** The code the retry loop settles on, given the codes the eleven draws
      produce: the first of the first ten that nobody holds, and the
      eleventh unchecked when all ten are taken. */
  predicate ChosenCode(db: Db, codes: seq<string>, code: string) {
    |codes| == RetryLimit + 1
    && exists k :: 0 <= k <= RetryLimit && codes[k] == code
         && (forall j :: 0 <= j < k ==> CodeTaken(db, codes[j]))
         && (k < RetryLimit ==> !CodeTaken(db, code))
  }

  /** The loop's choice is determined by the draws and the store. */
  lemma ChosenCodeIsUnique(db: Db, codes: seq<string>, c1: string, c2: string)
    requires ChosenCode(db, codes, c1) && ChosenCode(db, codes, c2)
    ensures c1 == c2
  {
    var k1 :| 0 <= k1 <= RetryLimit && codes[k1] == c1
               && (forall j :: 0 <= j < k1 ==> CodeTaken(db, codes[j]))
               && (k1 < RetryLimit ==> !CodeTaken(db, c1));
    var k2 :| 0 <= k2 <= RetryLimit && codes[k2] == c2
               && (forall j :: 0 <= j < k2 ==> CodeTaken(db, codes[j]))
               && (k2 < RetryLimit ==> !CodeTaken(db, c2));
  }

  /** When any of the first ten draws is free, the saved code is free, so
      the referral code stays unique. */
  lemma ChosenCodeIsFreeWhenPossible(db: Db, codes: seq<string>, code: string, m: nat)
    requires ChosenCode(db, codes, code) && m < RetryLimit && !CodeTaken(db, codes[m])
    ensures !CodeTaken(db, code)
  {
  }

  /** The codes the eleven draws produce, in order. */
  function Candidates(name: string, draws: seq<seq<nat>>): (codes: seq<string>)
    requires |draws| == RetryLimit + 1 && forall k :: 0 <= k < |draws| ==> ValidBytes(draws[k])
    ensures |codes| == RetryLimit + 1
    ensures forall k :: 0 <= k <= RetryLimit ==> codes[k] == GenerateReferralCode(name, draws[k])
  {
    seq(RetryLimit + 1, k requires 0 <= k <= RetryLimit => GenerateReferralCode(name, draws[k]))
  }

  /** The retry loop of `getUserReferralCode`. */
  method ChooseReferralCode(db: Db, codes: seq<string>) returns (code: string)
    requires |codes| == RetryLimit + 1
    ensures ChosenCode(db, codes, code)
  {
    code := codes[0];
    var attempts := 0;
    while attempts < RetryLimit
      invariant 0 <= attempts <= RetryLimit
      invariant code == codes[attempts]
      invariant forall j :: 0 <= j < attempts ==> CodeTaken(db, codes[j])
      decreases RetryLimit - attempts
    {
      if !ValidateReferralCode(db, code) {
        break;
      }
      code := codes[attempts + 1];
      attempts := attempts + 1;
    }
    assert attempts < RetryLimit ==> !CodeTaken(db, code);
  }

  /** `getUserReferralCode`. An unknown user fails, an existing code is
      returned without any write, and otherwise codes are drawn until one
      is free or ten have been tried, and the last is saved on the user. */
  method GetUserReferralCode(db: Db, userId: string, draws: seq<seq<nat>>) returns (r: Result<(string, Db)>)
    requires |draws| == RetryLimit + 1 && forall k :: 0 <= k < |draws| ==> ValidBytes(draws[k])
    ensures UserById(db, userId).None? <==> r == Err("User not found")
    ensures UserById(db, userId).Some? ==>
              var i := UserById(db, userId).value;
              var u := db.users[i];
              r.Ok? &&
              if u.referralCode.Some? && u.referralCode.value != "" then r.value == (u.referralCode.value, db)
              else
                ChosenCode(db, Candidates(u.name, draws), r.value.0)
                && r.value.1 == db.(users := db.users[i := u.(referralCode := Some(r.value.0))])
  {
    var found := UserById(db, userId);
    if found.None? {
      return Err("User not found");
    }
    var i := found.value;
    var u := db.users[i];
    if u.referralCode.Some? && u.referralCode.value != "" {
      return Ok((u.referralCode.value, db));
    }
    var code := ChooseReferralCode(db, Candidates(u.name, draws));
    return Ok((code, db.(users := db.users[i := u.(referralCode := Some(code))])));
  }

  /** `linkReferral`: an unknown code fails with nothing changed; otherwise
      only the new user's `referredBy` becomes the referrer's id. */
  function LinkReferral(db: Db, newUserId: string, code: string): (r: Result<Db>)
    ensures !CodeTaken(db, code) ==> r == Err("Invalid referral code")
    ensures r.Ok? <==> UserById(db, newUserId).Some? && CodeTaken(db, code)
    ensures r.Ok? ==>
              var i := UserById(db, newUserId).value;
              var referrer := db.users[UserByReferralCode(db, code).value];
              r.value == db.(users := db.users[i := db.users[i].(referredBy := Some(referrer.id))])
  {
    match UserByReferralCode(db, code)
    case None => Err("Invalid referral code")
    case Some(k) =>
      match UserById(db, newUserId)
      case None => Err("Record to update not found")
      case Some(i) => Ok(db.(users := db.users[i := db.users[i].(referredBy := Some(db.users[k].id))]))
  }

  /** After a successful link, the new user points at a user holding the
      code, and every other user is as before. */
  lemma LinkReferralPointsAtHolder(db: Db, newUserId: string, code: string)
    requires LinkReferral(db, newUserId, code).Ok?
    ensures var db' := LinkReferral(db, newUserId, code).value;
            var i := UserById(db, newUserId).value;
            |db'.users| == |db.users|
            && (forall j :: 0 <= j < |db.users| && j != i ==> db'.users[j] == db.users[j])
            && (exists h :: 0 <= h < |db.users| && db.users[h].referralCode == Some(code)
                             && db'.users[i].referredBy == Some(db.users[h].id))
  {
    var h := UserByReferralCode(db, code).value;
    assert db.users[h].referralCode == Some(code);
  }

  /** Linking a referral changes no id, role, estate or estate record. */
  lemma LinkKeepsIdentity(d: Db, userId: string, code: string, d': Db)
    requires LinkReferral(d, userId, code) == Ok(d')
    ensures d'.estates == d.estates && |d'.users| == |d.users|
    ensures forall j :: 0 <= j < |d.users| ==>
              d'.users[j].id == d.users[j].id && d'.users[j].role == d.users[j].role
              && d'.users[j].estateId == d.users[j].estateId
    ensures UserById(d', userId) == UserById(d, userId)
  {
    FindFirstSameMatches(d'.users, (u: User) => u.id == userId, d.users, (u: User) => u.id == userId);
  }
}
