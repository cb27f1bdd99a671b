/**
 * The user record: the schema's paths with their casting, setters and
 * validators, the stored record and what a valid one looks like, and the
 * values derived from it (the `age` and `fullName` virtuals, the
 * `sameBirthDateCount` method and the `newMonthlyUsers` static).
 */
module UserSchema {
  import opened Wrappers
  import opened Text
  import opened Calendar

  /**
   * The services the user code calls but that are not part of this model:
   * bcrypt hashing (`AuthService.encryptPassword`), the `isEmail` validator
   * and `capitalizeFirstCharacter`.
   */
  datatype Services = Services(
    encryptPassword: string -> string,
    isEmail: string -> bool,
    capitalize: string -> string)

  /**
   * The paths of the schema: the six it declares, and the two date paths
   * `createdAt` and `updatedAt` that the `timestamps` option adds.
   */
  datatype Field = FirstName | LastName | BirthDate | Email | Password | Username | CreatedAt | UpdatedAt

  const AllFields: set<Field> := {FirstName, LastName, BirthDate, Email, Password, Username, CreatedAt, UpdatedAt}

  /** The two paths the `timestamps` option adds. */
  predicate IsTimestamp(f: Field) {
    f == CreatedAt || f == UpdatedAt
  }

  /** The paths of type `Date`. */
  predicate IsDatePath(f: Field) {
    f == BirthDate || IsTimestamp(f)
  }

  /** Every path is one of the eight. */
  lemma AllFieldsComplete(f: Field)
    ensures f in AllFields
  {
    match f
    case FirstName =>
    case LastName =>
    case BirthDate =>
    case Email =>
    case Password =>
    case Username =>
    case CreatedAt =>
    case UpdatedAt =>
  }

  /** The paths marked `required`. */
  const RequiredFields: set<Field> := {FirstName, BirthDate, Email, Password, Username}

  /** The key of a path in request bodies and JSON output. */
  function KeyOf(f: Field): string {
    match f
    case FirstName => "firstName"
    case LastName => "lastName"
    case BirthDate => "birthDate"
    case Email => "email"
    case Password => "password"
    case Username => "username"
    case CreatedAt => "createdAt"
    case UpdatedAt => "updatedAt"
  }

  /** The schema path a key names, if any; every other key touches no path. */
  function SchemaPath(key: string): (f: Option<Field>)
    ensures f.Some? ==> KeyOf(f.value) == key
    ensures f.None? ==> forall g: Field :: KeyOf(g) != key
  {
    if key == "firstName" then Some(FirstName)
    else if key == "lastName" then Some(LastName)
    else if key == "birthDate" then Some(BirthDate)
    else if key == "email" then Some(Email)
    else if key == "password" then Some(Password)
    else if key == "username" then Some(Username)
    else if key == "createdAt" then Some(CreatedAt)
    else if key == "updatedAt" then Some(UpdatedAt)
    else None
  }

  /**
   * A value in a request body as the path's caster sees it: a string for the
   * string paths, a date for the date paths, or something the caster rejects.
   */
  datatype Value = Str(s: string) | Dt(d: Date) | Invalid

  /** The value kind a path holds. */
  predicate KindOk(f: Field, v: Value) {
    if IsDatePath(f) then v.Dt? else v.Str?
  }

  /** What the setters leave behind: names lower-case and trimmed, email and username trimmed. */
  predicate Normal(f: Field, v: Value) {
    match f
    case FirstName => v.Str? ==> IsLower(v.s) && IsTrimmed(v.s)
    case LastName => v.Str? ==> IsLower(v.s) && IsTrimmed(v.s)
    case Email => v.Str? ==> IsTrimmed(v.s)
    case Username => v.Str? ==> IsTrimmed(v.s)
    case Password => true
    case BirthDate => true
    case CreatedAt => true
    case UpdatedAt => true
  }

  /** The setters of a string path: `lowercase` and `trim` for the names, `trim` for the rest. */
  function ApplySetters(f: Field, s: string): string
    requires !IsDatePath(f)
  {
    if f == FirstName || f == LastName then Trim(Lower(s)) else Trim(s)
  }

  /** Casting a body value to path `f`, setters included; `None` is a cast error. */
  function Cast(f: Field, v: Value): (r: Option<Value>)
    ensures r.Some? ==> KindOk(f, r.value) && Normal(f, r.value)
    ensures r.Some? <==> KindOk(f, v)
    ensures IsDatePath(f) && r.Some? ==> r.value == v
  {
    if !KindOk(f, v) then None
    else if IsDatePath(f) then Some(v)
    else
      TrimLowerNormal(v.s);
      Some(Str(ApplySetters(f, v.s)))
  }

  /**
   * The validators of a path holding `v`: `required` rejects the empty string,
   * `validate` applies `isEmail` to the email, `minlength` and `maxlength`
   * bound the password.
   */
  predicate FieldValid(f: Field, v: Value, isEmail: string -> bool) {
    match f
    case FirstName => v.Str? && v.s != ""
    case LastName => v.Str?
    case BirthDate => v.Dt?
    case Email => v.Str? && v.s != "" && isEmail(v.s)
    case Password => v.Str? && v.s != "" && 8 <= |v.s| <= 20
    case Username => v.Str? && v.s != ""
    case CreatedAt => v.Dt?
    case UpdatedAt => v.Dt?
  }

  /** A stored user document, timestamps included. */
  datatype UserRecord = UserRecord(
    firstName: string,
    lastName: string,
    birthDate: Date,
    email: string,
    password: string,
    username: string,
    createdAt: Date,
    updatedAt: Date)

  /**
   * What the schema guarantees of a stored record: a non-empty first name and
   * a last name (possibly empty), both lower-case and trimmed; a non-empty,
   * trimmed email accepted by `isEmail`; a non-empty, trimmed username. The
   * password is stored as its hash and has no constraint of its own.
   */
  predicate ValidRecord(r: UserRecord, isEmail: string -> bool) {
    && r.firstName != "" && IsLower(r.firstName) && IsTrimmed(r.firstName)
    && IsLower(r.lastName) && IsTrimmed(r.lastName)
    && r.email != "" && IsTrimmed(r.email) && isEmail(r.email)
    && r.username != "" && IsTrimmed(r.username)
  }

  /** The collection: every record valid, usernames and emails unique (the two unique indexes). */
  predicate StoreValid(records: seq<UserRecord>, isEmail: string -> bool) {
    && (forall i | 0 <= i < |records| :: ValidRecord(records[i], isEmail))
    && (forall i, j | 0 <= i < j < |records| ::
          records[i].username != records[j].username && records[i].email != records[j].email)
  }

  // ---------------------------------------------------------------------------
  // Virtuals

  /** Milliseconds in a 365-day year. */
  const MsPerYear: int := 31_536_000_000

  /** The `age` virtual: whole 365-day years from `birthDate` to `now`, rounded down. */
  function Age(now: Date, birthDate: Date): (a: int)
    ensures a * 31_536_000_000 <= TimeValue(now) - TimeValue(birthDate) < (a + 1) * 31_536_000_000
    ensures a >= 0 <==> TimeValue(birthDate) <= TimeValue(now)
  {
    (TimeValue(now) - TimeValue(birthDate)) / MsPerYear
  }

  /** A birth date that is not after `now` gives a non-negative age. */
  lemma AgeNotNegative(now: Date, birthDate: Date)
    requires !Precedes(now, birthDate)
    ensures Age(now, birthDate) >= 0
  {
    TimeValueOrder(now, birthDate);
  }

  /** The `fullName` virtual: both names capitalized, joined by one space. */
  function FullName(firstName: string, lastName: string, capitalize: string -> string): (r: string)
    ensures var f, l := capitalize(firstName), capitalize(lastName);
            |r| == |f| + 1 + |l| && r[..|f|] == f && r[|f|] == ' ' && r[|f| + 1..] == l
  {
    capitalize(firstName) + " " + capitalize(lastName)
  }

  // ---------------------------------------------------------------------------
  // Counting queries

  /** `countDocuments(filter)`: how many records satisfy `p`. */
  function Count(records: seq<UserRecord>, p: UserRecord -> bool): (n: nat)
    ensures n <= |records|
    ensures n == 0 <==> forall i | 0 <= i < |records| :: !p(records[i])
  {
    if records == [] then 0
    else Count(records[..|records| - 1], p) + (if p(records[|records| - 1]) then 1 else 0)
  }

  /** Counting with a filter that agrees with another on every record gives the same count. */
  lemma {:induction false} CountCongruent(records: seq<UserRecord>, p: UserRecord -> bool, q: UserRecord -> bool)
    requires forall i | 0 <= i < |records| :: p(records[i]) == q(records[i])
    ensures Count(records, p) == Count(records, q)
  {
    if records != [] {
      CountCongruent(records[..|records| - 1], p, q);
    }
  }

  /** A matching record contributes exactly one to the count. */
  lemma {:induction false} CountWithout(records: seq<UserRecord>, i: int, p: UserRecord -> bool)
    requires 0 <= i < |records| && p(records[i])
    ensures Count(records, p) == Count(records[..i] + records[i + 1..], p) + 1
  {
    var n := |records|;
    if i < n - 1 {
      var front := records[..n - 1];
      CountWithout(front, i, p);
      var rest := records[..i] + records[i + 1..];
      assert rest[..|rest| - 1] == front[..i] + front[i + 1..];
      assert rest[|rest| - 1] == records[n - 1];
    } else {
      assert records[..i] + records[i + 1..] == records[..n - 1];
    }
  }

  /** `findOne({ username })`: the position of the first record with that username. */
  function FindUser(records: seq<UserRecord>, username: string): (r: Option<nat>)
    ensures r.Some? ==> r.value < |records| && records[r.value].username == username
    ensures r.Some? ==> forall i | 0 <= i < r.value :: records[i].username != username
    ensures r.None? ==> forall i | 0 <= i < |records| :: records[i].username != username
  {
    if records == [] then None
    else if records[0].username == username then Some(0)
    else match FindUser(records[1..], username)
      case None => None
      case Some(i) => Some(i + 1)
  }

  /** The filter of `sameBirthDateCount`. */
  function SameBirthDate(d: Date): UserRecord -> bool {
    (r: UserRecord) => r.birthDate == d
  }

  /** `user.sameBirthDateCount()`: the records born on the user's birth date, less one. */
  function SameBirthDateCount(records: seq<UserRecord>, user: UserRecord): int {
    Count(records, SameBirthDate(user.birthDate)) - 1
  }

  /**
   * For a stored user, `sameBirthDateCount` is the number of the other
   * records with the same birth date, so it is never negative.
   */
  lemma SameBirthDateCountCountsOthers(records: seq<UserRecord>, i: int)
    requires 0 <= i < |records|
    ensures SameBirthDateCount(records, records[i])
            == Count(records[..i] + records[i + 1..], SameBirthDate(records[i].birthDate))
    ensures SameBirthDateCount(records, records[i]) >= 0
  {
    CountWithout(records, i, SameBirthDate(records[i].birthDate));
  }

  /** The filter of `newMonthlyUsers`: `createdAt` in `[new Date(y, m, 1), new Date(y, m + 1, 1))`. */
  function CreatedInWindow(now: Date): UserRecord -> bool {
    (r: UserRecord) => TimeValue(NewDate(now.year, now.month, 1)) <= TimeValue(r.createdAt)
         && TimeValue(r.createdAt) < TimeValue(NewDate(now.year, now.month + 1, 1))
  }

  /** `User.newMonthlyUsers()`: the records created in the current month; no user is involved. */
  function NewMonthlyUsers(records: seq<UserRecord>, now: Date): nat {
    Count(records, CreatedInWindow(now))
  }

  /** The filter that keeps records created in month `m` of year `y`. */
  function CreatedInMonth(y: int, m: int): UserRecord -> bool {
    (r: UserRecord) => r.createdAt.year == y && r.createdAt.month == m
  }

  /**
   * `newMonthlyUsers` counts the records whose `createdAt` falls in the
   * calendar month of `now` (the year being read as the `Date` constructor
   * reads it).
   */
  lemma NewMonthlyUsersIsCalendarMonth(records: seq<UserRecord>, now: Date)
    ensures NewMonthlyUsers(records, now) == Count(records, CreatedInMonth(FullYear(now.year), now.month))
  {
    forall i | 0 <= i < |records|
      ensures CreatedInWindow(now)(records[i]) == CreatedInMonth(FullYear(now.year), now.month)(records[i])
    {
      MonthWindow(records[i].createdAt, now.year, now.month);
    }
    CountCongruent(records, CreatedInWindow(now), CreatedInMonth(FullYear(now.year), now.month));
  }

  /** A record created in the current month is counted. */
  lemma NewMonthlyUsersCountsCurrentMonth(records: seq<UserRecord>, now: Date, i: int)
    requires 0 <= i < |records| && !(0 <= now.year <= 99)
    requires records[i].createdAt.year == now.year && records[i].createdAt.month == now.month
    ensures NewMonthlyUsers(records, now) >= 1
  {
    NewMonthlyUsersIsCalendarMonth(records, now);
  }
}
