/**
 * The user routes: `POST /users`, `GET /users/:username`,
 * `PATCH /users/:username` and `DELETE /users/:username`, as methods of the
 * `users` collection, each returning the status and body it sends.
 */
module UserController {
  import opened Wrappers
  import opened Text
  import opened Calendar
  import opened Json
  import opened UserSchema
  import opened UserDocuments

  /**
   * A key of a serialized user: a schema path (the timestamps among them), a
   * virtual, or one of the two counts the read handler adds.
   */
  datatype OutKey =
    | PathKey(field: Field)
    | AgeKey
    | FullNameKey
    | SameBirthDateCountKey
    | NewMonthlyUsersKey

  /** The JSON name of a key. */
  function KeyName(k: OutKey): string {
    match k
    case PathKey(f) => KeyOf(f)
    case AgeKey => "age"
    case FullNameKey => "fullName"
    case SameBirthDateCountKey => "sameBirthDateCount"
    case NewMonthlyUsersKey => "newMonthlyUsers"
  }

  /** Distinct keys have distinct JSON names. */
  lemma KeyNamesDistinct(j: OutKey, k: OutKey)
    requires j != k
    ensures KeyName(j) != KeyName(k)
  {
    if j.PathKey? && k.PathKey? {
      AllFieldsComplete(j.field);
      AllFieldsComplete(k.field);
    } else if j.PathKey? {
      AllFieldsComplete(j.field);
    } else if k.PathKey? {
      AllFieldsComplete(k.field);
    }
  }

  /** A serialized user document. */
  type UserJson = map<OutKey, Json>

  /** A response body. */
  datatype Payload =
    | NoBody                      // `send()` with no argument
    | Text(text: string)          // a plain string
    | Document(fields: UserJson)  // a serialized user document
    | JsonNull                    // `send(null)`, which goes out as an empty body, like `send()`
    | Error(error: SaveError)     // a serialized save error

  datatype Response = Response(status: int, payload: Payload)

  /** The JSON form of a path's value. */
  function ValueJson(v: Value): Json {
    match v
    case Str(s) => JStr(s)
    case Dt(d) => JDate(d)
    case Invalid => JNull
  }

  /**
   * `toJSON` with virtuals: every path the document holds, the timestamps
   * among them, and the values of the `age` and `fullName` virtuals.
   */
  function ToJson(s: DocState, age: int, fullName: string): (out: UserJson)
    ensures forall f: Field :: PathKey(f) in out <==> f in s.values
    ensures forall f | f in s.values :: out[PathKey(f)] == ValueJson(s.values[f])
    ensures AgeKey in out && out[AgeKey] == JNum(age)
    ensures FullNameKey in out && out[FullNameKey] == JStr(fullName)
    ensures SameBirthDateCountKey !in out && NewMonthlyUsersKey !in out
  {
    var paths := map f | f in s.values :: PathKey(f) := ValueJson(s.values[f]);
    paths[AgeKey := JNum(age)][FullNameKey := JStr(fullName)]
  }

  /** The paths the virtuals read. */
  predicate HasVirtualInputs(s: DocState) {
    && FirstName in s.values && s.values[FirstName].Str?
    && LastName in s.values && s.values[LastName].Str?
    && BirthDate in s.values && s.values[BirthDate].Dt?
  }

  /** A document serialized at `now`. */
  function DocJson(s: DocState, now: Date, capitalize: string -> string): UserJson
    requires HasVirtualInputs(s)
  {
    ToJson(s, Age(now, s.values[BirthDate].d), FullName(s.values[FirstName].s, s.values[LastName].s, capitalize))
  }

  /**
   * The inline transform of the read handler: `firstName` and `lastName`
   * deleted, the two counts added, everything else kept.
   */
  function ReadTransform(full: UserJson, sameBirthDateCount: int, newMonthlyUsers: int): (out: UserJson)
    requires SameBirthDateCountKey !in full && NewMonthlyUsersKey !in full
    ensures forall k :: k in out <==> || (k in full && k != PathKey(FirstName) && k != PathKey(LastName))
                                      || k == SameBirthDateCountKey || k == NewMonthlyUsersKey
    ensures forall k | k in full && k != PathKey(FirstName) && k != PathKey(LastName) :: out[k] == full[k]
    ensures out[SameBirthDateCountKey] == JNum(sameBirthDateCount)
    ensures out[NewMonthlyUsersKey] == JNum(newMonthlyUsers)
  {
    (full - {PathKey(FirstName), PathKey(LastName)})
      [SameBirthDateCountKey := JNum(sameBirthDateCount)][NewMonthlyUsersKey := JNum(newMonthlyUsers)]
  }

  /**
   * The body of a successful read: the document loaded with its email and
   * password, serialized with the virtuals' values, then transformed.
   */
  function ReadBody(rec: UserRecord, age: int, fullName: string, sameBirthDateCount: int, newMonthlyUsers: int): UserJson
  {
    ReadTransform(ToJson(LoadedState(rec, true), age, fullName), sameBirthDateCount, newMonthlyUsers)
  }

  /** The transform keeps every key other than the two names, with its value. */
  lemma ReadTransformKeeps(full: UserJson, same: int, monthly: int, k: OutKey)
    requires SameBirthDateCountKey !in full && NewMonthlyUsersKey !in full
    requires k in full && k != PathKey(FirstName) && k != PathKey(LastName)
    ensures var out := ReadTransform(full, same, monthly);
            k in out && out[k] == full[k]
  {
  }

  /** A loaded document serializes each path it loaded as the stored value. */
  lemma LoadedPathJson(rec: UserRecord, withSecrets: bool, age: int, fullName: string, f: Field)
    requires f in LoadedState(rec, withSecrets).values
    ensures var full := ToJson(LoadedState(rec, withSecrets), age, fullName);
            PathKey(f) in full && full[PathKey(f)] == ValueJson(Stored(rec, f))
  {
  }

  /** The read body has no `firstName` and no `lastName` key. */
  lemma ReadHidesNames(rec: UserRecord, age: int, fullName: string, same: int, monthly: int)
    ensures var out := ReadBody(rec, age, fullName, same, monthly);
            PathKey(FirstName) !in out && PathKey(LastName) !in out
  {
  }

  /** Every other path the read loads (birth date, email, password, username, the timestamps) is in the body with its stored value. */
  lemma ReadBodyPath(rec: UserRecord, age: int, fullName: string, same: int, monthly: int, f: Field)
    requires f != FirstName && f != LastName
    ensures var out := ReadBody(rec, age, fullName, same, monthly);
            PathKey(f) in out && out[PathKey(f)] == ValueJson(Stored(rec, f))
  {
    LoadedPathJson(rec, true, age, fullName, f);
    ReadTransformKeeps(ToJson(LoadedState(rec, true), age, fullName), same, monthly, PathKey(f));
  }

  /** The read body discloses the stored email and password hash. */
  lemma ReadDisclosesSecrets(rec: UserRecord, age: int, fullName: string, same: int, monthly: int)
    ensures var out := ReadBody(rec, age, fullName, same, monthly);
            && PathKey(Email) in out && out[PathKey(Email)] == JStr(rec.email)
            && PathKey(Password) in out && out[PathKey(Password)] == JStr(rec.password)
  {
    ReadBodyPath(rec, age, fullName, same, monthly, Email);
    ReadBodyPath(rec, age, fullName, same, monthly, Password);
  }

  /** The read body keeps the timestamps and the virtuals and adds the two counts. */
  lemma ReadBodyDerived(rec: UserRecord, age: int, fullName: string, same: int, monthly: int)
    ensures var out := ReadBody(rec, age, fullName, same, monthly);
            && PathKey(CreatedAt) in out && out[PathKey(CreatedAt)] == JDate(rec.createdAt)
            && PathKey(UpdatedAt) in out && out[PathKey(UpdatedAt)] == JDate(rec.updatedAt)
            && AgeKey in out && out[AgeKey] == JNum(age)
            && FullNameKey in out && out[FullNameKey] == JStr(fullName)
            && SameBirthDateCountKey in out && out[SameBirthDateCountKey] == JNum(same)
            && NewMonthlyUsersKey in out && out[NewMonthlyUsersKey] == JNum(monthly)
  {
    var full := ToJson(LoadedState(rec, true), age, fullName);
    ReadBodyPath(rec, age, fullName, same, monthly, CreatedAt);
    ReadBodyPath(rec, age, fullName, same, monthly, UpdatedAt);
    ReadTransformKeeps(full, same, monthly, AgeKey);
    ReadTransformKeeps(full, same, monthly, FullNameKey);
  }

  /** The read body carries the two counts it was given. */
  lemma ReadBodyCounts(rec: UserRecord, age: int, fullName: string, same: int, monthly: int)
    ensures var out := ReadBody(rec, age, fullName, same, monthly);
            && SameBirthDateCountKey in out && out[SameBirthDateCountKey] == JNum(same)
            && NewMonthlyUsersKey in out && out[NewMonthlyUsersKey] == JNum(monthly)
  {
    var full := ToJson(LoadedState(rec, true), age, fullName);
    assert SameBirthDateCountKey !in full && NewMonthlyUsersKey !in full;
  }

  /** A well-formed document holding the names and the birth date can compute its virtuals. */
  lemma VirtualsDefined(d: DocState)
    requires WellFormed(d) && FirstName in d.values && LastName in d.values && BirthDate in d.values
    ensures HasVirtualInputs(d)
  {
    assert KindOk(FirstName, d.values[FirstName]) && KindOk(LastName, d.values[LastName]);
    assert KindOk(BirthDate, d.values[BirthDate]);
  }

  // ---------------------------------------------------------------------------
  // What each handler sends and leaves in the collection

  /** A response together with the collection after the request. */
  datatype Outcome = Outcome(response: Response, records: seq<UserRecord>)

  /** `createUser`: build a document from the body and save it; 201 with it, or 400 with the error. */
  function CreateOutcome(records: seq<UserRecord>, body: Body, now: Date, svc: Services): Outcome {
    var r := SaveSpec(records, NewDocState(body), now, svc);
    match r
    case Failed(e) => Outcome(Response(400, Error(e)), records)
    case Saved(after, d) =>
      VirtualsDefined(d);
      Outcome(Response(201, Document(DocJson(d, now, svc.capitalize))), after)
  }

  /**
   * `readUser`: 404 with no body for an unknown username, otherwise 200 with
   * the read body, whose counts are taken over the whole collection. Like
   * every query on `username`, the lookup casts the filter value through the
   * path's `trim` setter, so it matches the trimmed name.
   */
  function ReadResponse(records: seq<UserRecord>, username: string, now: Date, svc: Services): Response {
    match FindUser(records, Trim(username))
    case None => Response(404, NoBody)
    case Some(i) =>
      var rec := records[i];
      Response(200, Document(ReadBody(rec, Age(now, rec.birthDate), FullName(rec.firstName, rec.lastName, svc.capitalize),
                                      SameBirthDateCount(records, rec), NewMonthlyUsers(records, now))))
  }

  /** The document `updateUser` saves: the stored user, loaded without its secrets, with every key of the body assigned. */
  function UpdatedDoc(rec: UserRecord, body: Body): DocState {
    AssignAll(LoadedState(rec, false), body)
  }

  /**
   * `updateUser`: 404 for an unknown username; otherwise every key of the
   * body is assigned and the document saved. An empty body is answered with
   * 400 before the save, which then still runs and writes nothing; a failed
   * save answers 500.
   */
  function UpdateResponse(records: seq<UserRecord>, username: string, body: Body, now: Date, svc: Services): Response
    requires StoreValid(records, svc.isEmail)
  {
    match FindUser(records, Trim(username))
    case None => Response(404, Text("Object not found!"))
    case Some(i) => UpdateStoredResponse(records, i, body, now, svc)
  }

  /** What `updateUser` answers once it has found the user at `i`. */
  function UpdateStoredResponse(records: seq<UserRecord>, i: nat, body: Body, now: Date, svc: Services): Response
    requires StoreValid(records, svc.isEmail) && i < |records|
  {
    if body == [] then Response(400, Text("No updates sent!"))
    else
      LoadedWellFormed(records[i], false, svc.isEmail);
      match SaveSpec(records, UpdatedDoc(records[i], body), now, svc)
      case Failed(e) => Response(500, Error(e))
      case Saved(_, d) =>
        VirtualsDefined(d);
        Response(200, Document(DocJson(d, now, svc.capitalize)))
  }

  /** The collection after `updateUser`: what the save wrote, if it succeeded. */
  function UpdateRecords(records: seq<UserRecord>, username: string, body: Body, now: Date, svc: Services): seq<UserRecord>
    requires StoreValid(records, svc.isEmail)
  {
    match FindUser(records, Trim(username))
    case None => records
    case Some(i) =>
      LoadedWellFormed(records[i], false, svc.isEmail);
      match SaveSpec(records, UpdatedDoc(records[i], body), now, svc)
      case Failed(_) => records
      case Saved(after, _) => after
  }

  /** What `updateUser` leaves in the collection for a stored user: the save's records, or the old ones. */
  lemma UpdateRecordsFound(records: seq<UserRecord>, username: string, body: Body, now: Date, svc: Services, i: nat)
    requires StoreValid(records, svc.isEmail) && FindUser(records, Trim(username)) == Some(i)
    ensures WellFormed(UpdatedDoc(records[i], body))
    ensures var r := SaveSpec(records, UpdatedDoc(records[i], body), now, svc);
            UpdateRecords(records, username, body, now, svc) == if r.Saved? then r.records else records
  {
    LoadedWellFormed(records[i], false, svc.isEmail);
  }

  /** The collection without record `i`. */
  function Without(records: seq<UserRecord>, i: int): seq<UserRecord>
    requires 0 <= i < |records|
  {
    records[..i] + records[i + 1..]
  }

  /** `deleteUser`: 200 with the removed document (default projection), or 200 with `null`. */
  function DeleteOutcome(records: seq<UserRecord>, username: string, now: Date, svc: Services): Outcome {
    match FindUser(records, Trim(username))
    case None => Outcome(Response(200, JsonNull), records)
    case Some(i) =>
      var d := LoadedState(records[i], false);
      Outcome(Response(200, Document(DocJson(d, now, svc.capitalize))), Without(records, i))
  }

  // ---------------------------------------------------------------------------
  // The collection and the handlers

  /** The `users` collection, with the services the handlers call. */
  class UserStore {
    var records: seq<UserRecord>
    const svc: Services

    /** The unique indexes hold and every stored record passed validation. */
    predicate Valid()
      reads this
    {
      StoreValid(records, svc.isEmail)
    }

    constructor (svc: Services)
      ensures Valid() && records == [] && this.svc == svc
    {
      records := [];
      this.svc := svc;
    }

    /** `doc.save()` against this collection. */
    method Save(doc: UserDocument, now: Date) returns (err: Option<SaveError>)
      requires WellFormed(doc.State())
      modifies this, doc
      ensures var r := SaveSpec(old(records), old(doc.State()), now, svc);
              && (r.Saved? ==> err.None? && records == r.records && doc.State() == r.doc)
              && (r.Failed? ==> err == Some(r.error) && records == old(records))
    {
      var s := doc.State();
      var bad := InvalidPaths(s, svc.isEmail);
      if bad != {} {
        return Some(ValidationError(bad));
      }
      SaveSpecWrite(records, s, now, svc);
      doc.RunPreSaveHook(svc.encryptPassword);
      doc.ApplyTimestamps(now);
      var t := doc.State();
      var result := if s.isNew then Insert(records, t) else Update(records, t);
      if result.Failed? {
        return Some(result.error);
      }
      records := result.records;
      doc.MarkSaved();
      err := None;
    }

    /** `POST /users`. */
    method CreateUser(body: Body, now: Date) returns (resp: Response)
      requires Valid()
      modifies this
      ensures Valid()
      ensures Outcome(resp, records) == CreateOutcome(old(records), body, now, svc)
    {
      var user := new UserDocument.FromBody(body);
      ghost var r := SaveSpec(records, NewDocState(body), now, svc);
      if r.Saved? {
        SaveKeepsStoreValid(records, user.State(), now, svc);
      }
      var err := Save(user, now);
      if err.None? {
        assert r.Saved? && user.State() == r.doc && records == r.records;
        VirtualsDefined(user.State());
        resp := Response(201, Document(DocJson(user.State(), now, svc.capitalize)));
      } else {
        assert r.Failed? && err.value == r.error;
        resp := Response(400, Error(err.value));
      }
    }

    /** `GET /users/:username`. */
    method ReadUser(username: string, now: Date) returns (resp: Response)
      ensures resp == ReadResponse(records, username, now, svc)
    {
      var found := FindUser(records, Trim(username));
      if found.None? {
        return Response(404, NoBody);
      }
      var rec := records[found.value];
      var user := new UserDocument.Hydrate(rec, true);
      assert user.values[BirthDate] == Stored(rec, BirthDate);
      var age := Age(now, user.values[BirthDate].d);
      assert age == Age(now, rec.birthDate);
      var sameBirthDateCount := SameBirthDateCount(records, rec);
      var newMonthlyUsers := NewMonthlyUsers(records, now);
      resp := Response(200, Document(ReadBody(rec, age, FullName(rec.firstName, rec.lastName, svc.capitalize),
                                              sameBirthDateCount, newMonthlyUsers)));
    }

    /** `PATCH /users/:username`. */
    method UpdateUser(username: string, body: Body, now: Date) returns (resp: Response)
      requires Valid()
      modifies this
      ensures Valid()
      ensures resp == UpdateResponse(old(records), username, body, now, svc)
      ensures records == UpdateRecords(old(records), username, body, now, svc)
    {
      var found := FindUser(records, Trim(username));
      if found.None? {
        return Response(404, Text("Object not found!"));
      }
      var rec := records[found.value];
      var user := new UserDocument.Hydrate(rec, false);
      var sent: Option<Response> := None;
      if |body| < 1 {
        sent := Some(Response(400, Text("No updates sent!")));
      }
      user.SetEach(body);
      LoadedWellFormed(rec, false, svc.isEmail);
      ghost var r := SaveSpec(records, UpdatedDoc(rec, body), now, svc);
      if r.Saved? {
        SaveKeepsStoreValid(records, user.State(), now, svc);
      }
      var err := Save(user, now);
      assert r.Saved? ==> user.State() == r.doc && records == r.records;
      assert r.Failed? ==> err == Some(r.error) && records == old(records);
      if sent.Some? {
        resp := sent.value;
      } else if err.None? {
        VirtualsDefined(user.State());
        resp := Response(200, Document(DocJson(user.State(), now, svc.capitalize)));
      } else {
        resp := Response(500, Error(err.value));
      }
    }

    /** `DELETE /users/:username`. */
    method DeleteUser(username: string, now: Date) returns (resp: Response)
      requires Valid()
      modifies this
      ensures Valid()
      ensures Outcome(resp, records) == DeleteOutcome(old(records), username, now, svc)
    {
      var found := FindUser(records, Trim(username));
      if found.None? {
        return Response(200, JsonNull);
      }
      var i := found.value;
      var user := new UserDocument.Hydrate(records[i], false);
      RemoveKeepsStoreValid(records, i, svc.isEmail);
      records := Without(records, i);
      resp := Response(200, Document(DocJson(user.State(), now, svc.capitalize)));
    }
  }

  /** Removing a record keeps the collection valid. */
  lemma RemoveKeepsStoreValid(records: seq<UserRecord>, i: int, isEmail: string -> bool)
    requires 0 <= i < |records| && StoreValid(records, isEmail)
    ensures StoreValid(Without(records, i), isEmail)
  {
    var after := Without(records, i);
    assert forall j | 0 <= j < |after| :: after[j] == records[if j < i then j else j + 1];
  }

  // ---------------------------------------------------------------------------
  // Properties of the handlers

  /** `createUser` answers 201 and appends one record, or answers 400 and stores nothing. */
  lemma CreateResult(records: seq<UserRecord>, body: Body, now: Date, svc: Services)
    ensures var o := CreateOutcome(records, body, now, svc);
            && (o.response.status == 201 || o.response.status == 400)
            && (o.response.status == 201 <==> SaveSpec(records, NewDocState(body), now, svc).Saved?)
            && (o.response.status == 400 ==> o.records == records && o.response.payload.Error?)
            && (o.response.status == 201 ==> |o.records| == |records| + 1 && o.records[..|records|] == records)
  {
  }

  /**
   * A created user is stored with the hash of the password the body gave;
   * its `createdAt` is the body's when the body named one, else `now`, and
   * its `updatedAt` equals its `createdAt`.
   */
  lemma CreateStoresHash(records: seq<UserRecord>, body: Body, now: Date, svc: Services)
    requires CreateOutcome(records, body, now, svc).response.status == 201
    ensures var s := NewDocState(body);
            var after := CreateOutcome(records, body, now, svc).records;
            && |after| == |records| + 1
            && Password in s.values
            && after[|records|].password == Trim(svc.encryptPassword(s.values[Password].s))
            && Dt(after[|records|].createdAt) == (if CreatedAt in s.values then s.values[CreatedAt] else Dt(now))
            && after[|records|].updatedAt == after[|records|].createdAt
  {
    SaveNewStoresHash(records, NewDocState(body), now, svc);
  }

  /**
   * A body that passes validation is answered 201 exactly when no stored
   * user has its username or its email; otherwise the unique index answers
   * 400 with a duplicate-key error and nothing is stored.
   */
  lemma CreateValidBody(records: seq<UserRecord>, body: Body, now: Date, svc: Services)
    requires InvalidPaths(NewDocState(body), svc.isEmail) == {}
    ensures CreateOutcome(records, body, now, svc).response.status == 201 <==> !TakenBy(records, NewDocState(body))
    ensures TakenBy(records, NewDocState(body)) ==>
              CreateOutcome(records, body, now, svc) == Outcome(Response(400, Error(DuplicateKey)), records)
  {
    SaveNewOutcome(records, NewDocState(body), now, svc);
  }

  /** A body naming a username already stored is answered 400 and stores nothing. */
  lemma CreateRejectsTakenUsername(records: seq<UserRecord>, body: Body, now: Date, svc: Services, j: int)
    requires 0 <= j < |records|
    requires Username in NewDocState(body).values && NewDocState(body).values[Username] == Str(records[j].username)
    ensures CreateOutcome(records, body, now, svc) == Outcome(CreateOutcome(records, body, now, svc).response, records)
    ensures CreateOutcome(records, body, now, svc).response.status == 400
  {
    SaveNewRejectsTakenUsername(records, NewDocState(body), now, svc, j);
  }

  /** `readUser` answers 404 with no body exactly when no stored user has the username, and 200 otherwise. */
  lemma ReadResult(records: seq<UserRecord>, username: string, now: Date, svc: Services)
    ensures var r := ReadResponse(records, username, now, svc);
            && (r == Response(404, NoBody) <==> forall j | 0 <= j < |records| :: records[j].username != Trim(username))
            && (r.status == 200 <==> exists j | 0 <= j < |records| :: records[j].username == Trim(username))
  {
  }

  /**
   * The counts `readUser` reports for a stored user: how many other users
   * share its birth date, and how many were created in the current
   * calendar month.
   */
  lemma ReadReportsCounts(records: seq<UserRecord>, username: string, now: Date, svc: Services, i: int)
    requires StoreValid(records, svc.isEmail) && 0 <= i < |records| && records[i].username == Trim(username)
    ensures ReadResponse(records, username, now, svc).status == 200
    ensures var r := ReadResponse(records, username, now, svc);
            var others := Count(records[..i] + records[i + 1..], SameBirthDate(records[i].birthDate));
            && r.payload.Document?
            && SameBirthDateCountKey in r.payload.fields && r.payload.fields[SameBirthDateCountKey] == JNum(others)
            && NewMonthlyUsersKey in r.payload.fields
            && r.payload.fields[NewMonthlyUsersKey] == JNum(Count(records, CreatedInMonth(FullYear(now.year), now.month)))
  {
    var found := FindUser(records, Trim(username));
    assert found == Some(i);
    var rec := records[i];
    ReadBodyCounts(rec, Age(now, rec.birthDate), FullName(rec.firstName, rec.lastName, svc.capitalize),
                   SameBirthDateCount(records, rec), NewMonthlyUsers(records, now));
    SameBirthDateCountCountsOthers(records, i);
    NewMonthlyUsersIsCalendarMonth(records, now);
  }

  /**
   * `updateUser` answers 404 "Object not found!" for an unknown username;
   * otherwise 400 exactly when the body is empty, 500 when the save fails
   * and 200 when it succeeds. A failed save stores nothing.
   */
  lemma UpdateResult(records: seq<UserRecord>, username: string, body: Body, now: Date, svc: Services)
    requires StoreValid(records, svc.isEmail)
    ensures var resp := UpdateResponse(records, username, body, now, svc);
            var known := exists j | 0 <= j < |records| :: records[j].username == Trim(username);
            && (!known ==> resp == Response(404, Text("Object not found!")))
            && (!known ==> UpdateRecords(records, username, body, now, svc) == records)
            && (known && body == [] ==> resp == Response(400, Text("No updates sent!")))
            && (known && body != [] ==> resp.status == 200 || resp.status == 500)
            && (resp.status == 500 ==> UpdateRecords(records, username, body, now, svc) == records)
  {
    match FindUser(records, Trim(username))
    case None =>
    case Some(i) =>
      UpdateRecordsFound(records, username, body, now, svc, i);
  }

  /** With an empty body the save still runs, but writes nothing. */
  lemma UpdateEmptyBodyWritesNothing(records: seq<UserRecord>, username: string, now: Date, svc: Services)
    requires StoreValid(records, svc.isEmail)
    ensures UpdateRecords(records, username, [], now, svc) == records
  {
    match FindUser(records, Trim(username))
    case None =>
    case Some(i) =>
      AssignNothing(LoadedState(records[i], false));
  }

  /**
   * `updateUser` never changes a username, and changes no record but the
   * one it was asked about.
   */
  lemma UpdateTouchesOnlyItsUser(records: seq<UserRecord>, username: string, body: Body, now: Date, svc: Services)
    requires StoreValid(records, svc.isEmail)
    ensures var after := UpdateRecords(records, username, body, now, svc);
            && |after| == |records|
            && (forall j | 0 <= j < |records| :: after[j].username == records[j].username)
            && (forall j | 0 <= j < |records| && records[j].username != Trim(username) :: after[j] == records[j])
  {
    match FindUser(records, Trim(username))
    case None =>
    case Some(i) =>
      var s := UpdatedDoc(records[i], body);
      LoadedWellFormed(records[i], false, svc.isEmail);
      AssignAllKeepsUsername(LoadedState(records[i], false), body);
      if SaveSpec(records, s, now, svc).Saved? {
        SaveStoredTouchesOnlyItsRecord(records, s, now, svc);
      }
  }

  /** A stored user, loaded without its secrets, holds no password after a body without a "password" key. */
  lemma UpdatedDocHasNoPassword(rec: UserRecord, body: Body)
    requires forall k | 0 <= k < |body| :: body[k].0 != "password"
    ensures Password !in UpdatedDoc(rec, body).values && !UpdatedDoc(rec, body).isNew
  {
    var s := LoadedState(rec, false);
    assert KeyOf(Password) == "password" && Password !in s.values;
    AssignAllLeavesOtherPaths(s, body, Password);
  }

  /** A body without a "password" key leaves every stored password as it was. */
  lemma UpdateWithoutPasswordKeepsPasswords(records: seq<UserRecord>, username: string, body: Body, now: Date, svc: Services)
    requires StoreValid(records, svc.isEmail)
    requires forall k | 0 <= k < |body| :: body[k].0 != "password"
    ensures var after := UpdateRecords(records, username, body, now, svc);
            && |after| == |records|
            && forall j | 0 <= j < |records| :: after[j].password == records[j].password
  {
    var found := FindUser(records, Trim(username));
    if found.Some? {
      var i := found.value;
      var s := UpdatedDoc(records[i], body);
      UpdateRecordsFound(records, username, body, now, svc, i);
      UpdatedDocHasNoPassword(records[i], body);
      if SaveSpec(records, s, now, svc).Saved? {
        SaveStoredKeepsPasswords(records, s, now, svc);
      }
    }
  }

  /**
   * A lookup by a name with surrounding whitespace behaves exactly like a
   * lookup by the trimmed name, in all three handlers.
   */
  lemma LookupTrimsUsername(records: seq<UserRecord>, username: string, body: Body, now: Date, svc: Services)
    requires StoreValid(records, svc.isEmail)
    ensures ReadResponse(records, username, now, svc) == ReadResponse(records, Trim(username), now, svc)
    ensures UpdateResponse(records, username, body, now, svc) == UpdateResponse(records, Trim(username), body, now, svc)
    ensures UpdateRecords(records, username, body, now, svc) == UpdateRecords(records, Trim(username), body, now, svc)
    ensures DeleteOutcome(records, username, now, svc) == DeleteOutcome(records, Trim(username), now, svc)
  {
    var key := Trim(username);
    TrimIdempotent(key);
    assert FindUser(records, Trim(key)) == FindUser(records, key);
  }

  /**
   * `deleteUser` always answers 200: with the removed user, which is then
   * gone, or with `null`, leaving the collection as it was.
   */
  lemma DeleteResult(records: seq<UserRecord>, username: string, now: Date, svc: Services)
    requires StoreValid(records, svc.isEmail)
    ensures var o := DeleteOutcome(records, username, now, svc);
            && o.response.status == 200
            && (o.response.payload == JsonNull <==> forall j | 0 <= j < |records| :: records[j].username != Trim(username))
            && (o.response.payload == JsonNull ==> o.records == records)
            && (o.response.payload != JsonNull ==> |o.records| == |records| - 1)
            && forall j | 0 <= j < |o.records| :: o.records[j].username != Trim(username)
  {
    match FindUser(records, Trim(username))
    case None =>
    case Some(i) =>
      var after := Without(records, i);
      forall j | 0 <= j < |after| ensures after[j].username != Trim(username) {
        var k := if j < i then j else j + 1;
        assert after[j] == records[k];
      }
  }

  /** Deleting the same username twice: the second delete answers `null`. */
  lemma DeleteTwice(records: seq<UserRecord>, username: string, now: Date, svc: Services)
    requires StoreValid(records, svc.isEmail)
    ensures var first := DeleteOutcome(records, username, now, svc);
            DeleteOutcome(first.records, username, now, svc) == Outcome(Response(200, JsonNull), first.records)
  {
    DeleteResult(records, username, now, svc);
    var first := DeleteOutcome(records, username, now, svc);
    match FindUser(first.records, Trim(username))
    case None =>
    case Some(k) =>
      assert false;
  }
}
