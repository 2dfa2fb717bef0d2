/** The domain vocabulary shared by the mock service, the backend and the
    dashboards: roles, pass states and kinds, tiers, bills, and the guest
    pass record itself. Time is a count of milliseconds (JavaScript's
    `Date.now()`), passed in by the caller. */
module Types {
  import opened Common

  datatype UserRole = SuperAdmin | EstateAdmin | Resident | Security

  /** The name the database's enum gives a role. */
  function RoleName(r: UserRole): (s: string)
    ensures ParseRole(s) == Some(r)
  {
    match r
    case SuperAdmin => "SUPER_ADMIN"
    case EstateAdmin => "ESTATE_ADMIN"
    case Resident => "RESIDENT"
    case Security => "SECURITY"
  }

  /** The role a name denotes, if any. */
  function ParseRole(s: string): (r: Option<UserRole>)
    ensures r == Some(SuperAdmin) <==> s == "SUPER_ADMIN"
    ensures r == Some(EstateAdmin) <==> s == "ESTATE_ADMIN"
    ensures r == Some(Resident) <==> s == "RESIDENT"
    ensures r == Some(Security) <==> s == "SECURITY"
  {
    if s == "SUPER_ADMIN" then Some(SuperAdmin)
    else if s == "ESTATE_ADMIN" then Some(EstateAdmin)
    else if s == "RESIDENT" then Some(Resident)
    else if s == "SECURITY" then Some(Security)
    else None
  }

  datatype PassStatus = Active | CheckedIn | Expired | Cancelled

  datatype PassType = OneTime | Recurring | Delivery

  datatype SubscriptionTier = Free | Premium

  datatype BillStatus = Paid | Unpaid

  datatype BillType = ServiceCharge | Power | Waste | Water | SecurityLevy | Maintenance | Utility | Other

  /** The two kinds of gate action a guard records. */
  datatype GateAction = Entry | Exit

  /** A gate action a guard's device recorded while offline, to be replayed
      when it reconnects. */
  datatype OfflineAction = OfflineAction(action: GateAction, passId: string, timestamp: int)

  const MinuteMs: nat := 60000
  const HourMs: nat := 3600000
  const DayMs: nat := 86400000

  /** A pass is live, as the dashboards and the offline cache count it,
      while it is ACTIVE or CHECKED_IN. */
  predicate IsLive(s: PassStatus) {
    s == Active || s == CheckedIn
  }

  /** A guest pass as the web client and the mock service hold it. Optional
      fields of the source are `Option`s. */
  datatype GuestPass = GuestPass(
    id: string,
    code: string,
    hostId: string,
    hostName: string,
    hostUnit: Option<string>,
    guestName: string,
    exitInstruction: Option<string>,
    status: PassStatus,
    passType: PassType,
    recurringDays: Option<seq<string>>,
    recurringTimeStart: Option<string>,
    recurringTimeEnd: Option<string>,
    createdAt: int,
    validUntil: int,
    entryTime: Option<int>,
    exitTime: Option<int>,
    plateNumber: Option<string>,
    deliveryCompany: Option<string>
  )

  /** The status an exit leaves behind, online (mock and backend alike):
      a recurring pass can be used again, every other pass is spent. */
  function ExitStatus(t: PassType): (s: PassStatus)
    ensures s == Active <==> t == Recurring
    ensures s == Expired <==> t != Recurring
  {
    if t == Recurring then Active else Expired
  }

  /** `Math.floor(lo + Math.random() * span).toString()` for a draw `k` in
      `0 .. span-1`: a decimal code of `lo + k`. */
  function RandomCode(lo: nat, k: nat): string {
    DecimalString(lo + k)
  }

  /** The five-digit pass code: `10000 + k` for `k < 90000` has exactly five
      digits. */
  lemma PassCodeHasFiveDigits(k: nat)
    requires k < 90000
    ensures |RandomCode(10000, k)| == 5 && AllDigits(RandomCode(10000, k))
  {
    assert Pow10(4) == 10000 && Pow10(5) == 100000;
    DecimalStringLength(10000 + k, 5);
  }

  /** The pass code reads back as a number in 10000 .. 99999. */
  lemma PassCodeInRange(k: nat)
    requires k < 90000
    ensures 10000 <= DigitsValue(RandomCode(10000, k)) <= 99999
  {
    DecimalStringReadsBack(10000 + k);
  }

  /** A value in a JSON request body, as far as the backend looks at it: a
      string, `null`, or anything else (a number, a flag, an object). */
  datatype JsonValue = JStr(s: string) | JNull | JOther

  /** A request body: the keys the caller sent and their values. A key
      that was not sent reads as `undefined`. */
  type Body = map<string, JsonValue>
}
