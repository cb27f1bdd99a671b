/**
 * A user document as the document layer handles it for the user schema:
 * assignment through the schema's casters and setters in strict mode,
 * validation, the pre-save hook that hashes a modified password, the
 * timestamps, and what a save writes to the collection.
 */
module UserDocuments {
  import opened Wrappers
  import opened Text
  import opened Calendar
  import opened UserSchema

  /** A request body: its own enumerable keys, in order, with their values. */
  type Body = seq<(string, Value)>

  /**
   * The state of a document: whether it is new, the paths it holds (the
   * timestamps among them), the paths modified since it was built or
   * loaded, and the paths whose cast failed.
   */
  datatype DocState = DocState(
    isNew: bool,
    values: map<Field, Value>,
    modified: set<Field>,
    castErrors: set<Field>)

  /**
   * Every path holds a cast value in setter-normal form, only held paths are
   * modified, a new document has its `lastName` default and a loaded one
   * its username.
   */
  predicate WellFormed(s: DocState) {
    && s.modified <= s.values.Keys
    && (forall f | f in s.values :: KindOk(f, s.values[f]) && Normal(f, s.values[f]))
    && (s.isNew ==> LastName in s.values)
    && (s.isNew ==> forall f | f in s.values && f != LastName :: f in s.modified)
    && (!s.isNew ==> Username in s.values)
  }

  /**
   * `doc[key] = v`: a key that is no schema path leaves the paths alone
   * (strict mode drops it from `new User(body)`, and on a loaded document it
   * becomes a plain property that neither the save nor `toJSON` reads), the
   * immutable username of a stored document is left alone, a value the
   * caster rejects records a cast error, and any other value is stored
   * after its setters, the path counting as modified when its value changes.
   */
  function AssignKey(s: DocState, key: string, v: Value): (t: DocState)
    ensures t.isNew == s.isNew
    ensures s.values.Keys <= t.values.Keys && s.modified <= t.modified
    ensures forall g: Field | KeyOf(g) != key ::
              (g in t.values <==> g in s.values) && (g in s.values ==> t.values[g] == s.values[g])
                && (g in t.modified <==> g in s.modified)
    ensures WellFormed(s) ==> WellFormed(t)
  {
    match SchemaPath(key)
    case None => s
    case Some(f) =>
      if f == Username && !s.isNew then s
      else match Cast(f, v)
        case None => s.(castErrors := s.castErrors + {f})
        case Some(c) =>
          s.(values := s.values[f := c],
             modified := if f in s.values && s.values[f] == c then s.modified else s.modified + {f})
  }

  /** A key outside the schema changes no path, no mark and no cast error. */
  lemma UnknownKeyIgnored(s: DocState, key: string, v: Value)
    requires forall f: Field :: KeyOf(f) != key
    ensures AssignKey(s, key, v) == s
  {
  }

  /** Assigning the username of a stored document changes nothing. */
  lemma UsernameImmutable(s: DocState, v: Value)
    requires !s.isNew
    ensures AssignKey(s, "username", v) == s
  {
  }

  /**
   * Assigning a schema path (other than the username of a stored document)
   * stores the cast value and marks the path modified when it changed, or
   * records a cast error and keeps the old value.
   */
  lemma AssignSchemaPath(s: DocState, f: Field, v: Value)
    requires f != Username || s.isNew
    ensures var t := AssignKey(s, KeyOf(f), v);
            if KindOk(f, v) then
              && t.values == s.values[f := Cast(f, v).value]
              && (f in t.modified <==> f in s.modified || f !in s.values || s.values[f] != Cast(f, v).value)
              && t.castErrors == s.castErrors
            else
              t.values == s.values && t.modified == s.modified && t.castErrors == s.castErrors + {f}
  {
    assert SchemaPath(KeyOf(f)) == Some(f);
  }

  /** Assigning every entry of a body in order. */
  function AssignAll(s: DocState, body: Body): (t: DocState)
    ensures t.isNew == s.isNew
    ensures s.values.Keys <= t.values.Keys && s.modified <= t.modified
    ensures WellFormed(s) ==> WellFormed(t)
    decreases |body|
  {
    if body == [] then s
    else AssignKey(AssignAll(s, body[..|body| - 1]), body[|body| - 1].0, body[|body| - 1].1)
  }

  /** A path whose key is absent from the body keeps its value and its modified flag. */
  lemma {:induction false} AssignAllLeavesOtherPaths(s: DocState, body: Body, f: Field)
    requires forall i | 0 <= i < |body| :: body[i].0 != KeyOf(f)
    ensures var t := AssignAll(s, body);
            && (f in t.values <==> f in s.values)
            && (f in s.values ==> t.values[f] == s.values[f])
            && (f in t.modified <==> f in s.modified)
  {
    if body != [] {
      AssignAllLeavesOtherPaths(s, body[..|body| - 1], f);
    }
  }

  /** An empty body leaves the document as it was. */
  lemma AssignNothing(s: DocState)
    ensures AssignAll(s, []) == s
  {
  }

  /** A fresh document: only the `lastName` default is set. */
  const Blank: DocState := DocState(true, map[LastName := Str("")], {}, {})

  /** `new User(body)`: the defaults, then every key of the body assigned in order. */
  function NewDocState(body: Body): (s: DocState)
    ensures s.isNew && WellFormed(s)
  {
    assert WellFormed(Blank);
    AssignAll(Blank, body)
  }

  /** A new document holds a timestamp only when its body names it. */
  lemma NewDocLacksUnnamedTimestamp(body: Body, f: Field)
    requires IsTimestamp(f) && forall i | 0 <= i < |body| :: body[i].0 != KeyOf(f)
    ensures f !in NewDocState(body).values
  {
    AssignAllLeavesOtherPaths(Blank, body, f);
  }

  /** A body whose last entry gives a timestamp a date sets that timestamp. */
  lemma NewDocTakesBodyTimestamp(body: Body, f: Field, d: Date)
    requires IsTimestamp(f)
    ensures var s := NewDocState(body + [(KeyOf(f), Dt(d))]);
            f in s.values && s.values[f] == Dt(d)
  {
    var full := body + [(KeyOf(f), Dt(d))];
    assert full[..|full| - 1] == body;
    AssignSchemaPath(AssignAll(Blank, body), f, Dt(d));
  }

  /** The value a stored record holds for a path. */
  function Stored(rec: UserRecord, f: Field): Value {
    match f
    case FirstName => Str(rec.firstName)
    case LastName => Str(rec.lastName)
    case BirthDate => Dt(rec.birthDate)
    case Email => Str(rec.email)
    case Password => Str(rec.password)
    case Username => Str(rec.username)
    case CreatedAt => Dt(rec.createdAt)
    case UpdatedAt => Dt(rec.updatedAt)
  }

  /**
   * A document loaded from a stored record: email and password are
   * `select: false`, so they are loaded only when asked for; every other
   * path, the timestamps included, is loaded.
   */
  function LoadedState(rec: UserRecord, withSecrets: bool): (s: DocState)
    ensures !s.isNew && s.modified == {} && s.castErrors == {}
    ensures && FirstName in s.values && LastName in s.values && BirthDate in s.values
            && Username in s.values && CreatedAt in s.values && UpdatedAt in s.values
    ensures (Email in s.values <==> withSecrets) && (Password in s.values <==> withSecrets)
    ensures forall f | f in s.values :: s.values[f] == Stored(rec, f)
  {
    var base := map[FirstName := Str(rec.firstName), LastName := Str(rec.lastName),
                    BirthDate := Dt(rec.birthDate), Username := Str(rec.username),
                    CreatedAt := Dt(rec.createdAt), UpdatedAt := Dt(rec.updatedAt)];
    var values := if withSecrets then base[Email := Str(rec.email)][Password := Str(rec.password)] else base;
    DocState(false, values, {}, {})
  }

  /** A document loaded from a valid record is well formed. */
  lemma LoadedWellFormed(rec: UserRecord, withSecrets: bool, isEmail: string -> bool)
    requires ValidRecord(rec, isEmail)
    ensures WellFormed(LoadedState(rec, withSecrets))
  {
    var s := LoadedState(rec, withSecrets);
    forall f | f in s.values ensures KindOk(f, s.values[f]) && Normal(f, s.values[f]) {
      assert s.values[f] == Stored(rec, f);
    }
  }

  /**
   * The paths that fail validation: those with a cast error, the required
   * paths a new document lacks, and the held paths whose validators fail.
   */
  function InvalidPaths(s: DocState, isEmail: string -> bool): set<Field> {
    set f: Field | f in AllFields &&
      (|| f in s.castErrors
       || (s.isNew && f in RequiredFields && f !in s.values)
       || (f in s.values && !FieldValid(f, s.values[f], isEmail)))
  }

  /**
   * A document that validates has no cast error and every path it holds is
   * valid; a new one holds every path but the timestamps.
   */
  lemma Validated(s: DocState, isEmail: string -> bool)
    requires InvalidPaths(s, isEmail) == {}
    ensures s.castErrors == {}
    ensures forall f | f in s.values :: FieldValid(f, s.values[f], isEmail)
    ensures s.isNew && WellFormed(s) ==> forall f: Field | !IsTimestamp(f) :: f in s.values
  {
    forall f: Field ensures f !in InvalidPaths(s, isEmail) && f in AllFields {
      AllFieldsComplete(f);
    }
    if s.isNew && WellFormed(s) {
      forall f: Field | !IsTimestamp(f) ensures f in s.values {
        if f != LastName {
          assert f in RequiredFields by { AllFieldsComplete(f); }
        }
      }
    }
    forall f | f in s.castErrors ensures f in InvalidPaths(s, isEmail) {
      AllFieldsComplete(f);
    }
  }

  /**
   * The pre-save hook: when the password is modified it is replaced by its
   * hash, assigned through the path's setter; nothing else changes.
   */
  function PreSaveHook(s: DocState, encrypt: string -> string): (t: DocState)
    requires WellFormed(s)
    ensures WellFormed(t) && t.values.Keys == s.values.Keys && t == s.(values := t.values)
    ensures forall f | f in s.values && f != Password :: t.values[f] == s.values[f]
    ensures Password in s.modified ==> t.values[Password] == Str(Trim(encrypt(s.values[Password].s)))
    ensures Password !in s.modified ==> t == s
  {
    if Password in s.modified then
      s.(values := s.values[Password := Str(ApplySetters(Password, encrypt(s.values[Password].s)))])
    else s
  }

  /**
   * The `timestamps` option's step of a save: `createdAt` is set to `now`
   * only when it is unset, so a new document keeps a `createdAt` its body
   * gave; then a new document's `updatedAt` is set to its `createdAt`, and a
   * stored one's to `now` when something is modified. Each path it sets
   * counts as modified.
   */
  function Stamp(s: DocState, now: Date): (t: DocState)
    ensures t.isNew == s.isNew && s.values.Keys <= t.values.Keys
    ensures WellFormed(s) ==> WellFormed(t)
  {
    if !s.isNew && s.modified == {} && CreatedAt in s.values then s
    else
      var created := if CreatedAt in s.values then s.values[CreatedAt] else Dt(now);
      var stamped := if CreatedAt in s.values then {UpdatedAt} else {CreatedAt, UpdatedAt};
      s.(values := s.values[CreatedAt := created][UpdatedAt := if s.isNew then created else Dt(now)],
         modified := s.modified + stamped)
  }

  /**
   * The timestamps and the password hook commute: the hook reads and writes
   * only the password, the timestamps only `createdAt` and `updatedAt`.
   */
  lemma HookAndStampCommute(s: DocState, now: Date, encrypt: string -> string)
    requires WellFormed(s)
    ensures PreSaveHook(Stamp(s, now), encrypt) == Stamp(PreSaveHook(s, encrypt), now)
  {
    if Password !in s.modified {
      assert PreSaveHook(s, encrypt) == s;
      assert Password !in Stamp(s, now).modified;
    } else {
      var p := Str(ApplySetters(Password, encrypt(s.values[Password].s)));
      StampThenHook(s, now, encrypt, p);
      HookThenStamp(s, now, encrypt, p);
    }
  }

  /** The timestamps, then the hook, on a document whose password is modified. */
  lemma StampThenHook(s: DocState, now: Date, encrypt: string -> string, p: Value)
    requires WellFormed(s) && Password in s.modified
    requires p == Str(ApplySetters(Password, encrypt(s.values[Password].s)))
    ensures var created := if CreatedAt in s.values then s.values[CreatedAt] else Dt(now);
            var stamped := if CreatedAt in s.values then {UpdatedAt} else {CreatedAt, UpdatedAt};
            PreSaveHook(Stamp(s, now), encrypt)
              == s.(values := s.values[CreatedAt := created][UpdatedAt := if s.isNew then created else Dt(now)][Password := p],
                    modified := s.modified + stamped)
  {
  }

  /** The hook, then the timestamps, on a document whose password is modified. */
  lemma HookThenStamp(s: DocState, now: Date, encrypt: string -> string, p: Value)
    requires WellFormed(s) && Password in s.modified
    requires p == Str(ApplySetters(Password, encrypt(s.values[Password].s)))
    ensures var created := if CreatedAt in s.values then s.values[CreatedAt] else Dt(now);
            var stamped := if CreatedAt in s.values then {UpdatedAt} else {CreatedAt, UpdatedAt};
            Stamp(PreSaveHook(s, encrypt), now)
              == s.(values := s.values[CreatedAt := created][UpdatedAt := if s.isNew then created else Dt(now)][Password := p],
                    modified := s.modified + stamped)
  {
    var created := if CreatedAt in s.values then s.values[CreatedAt] else Dt(now);
    var updated := if s.isNew then created else Dt(now);
    assert s.values[Password := p][CreatedAt := created][UpdatedAt := updated]
        == s.values[CreatedAt := created][UpdatedAt := updated][Password := p];
  }

  /**
   * What the timestamps step sets: `createdAt` only when unset, `updatedAt`
   * to `createdAt` on a new document and to `now` on a modified stored one,
   * each marked modified; every other path is left as it was, and a stored
   * document with nothing modified is left alone.
   */
  lemma StampSetsTimestamps(s: DocState, now: Date)
    ensures var t := Stamp(s, now);
            && t.isNew == s.isNew && t.castErrors == s.castErrors && s.modified <= t.modified
            && (forall f: Field | !IsTimestamp(f) :: (f in t.values <==> f in s.values) && (f in t.modified <==> f in s.modified))
            && (forall f | f in s.values && !IsTimestamp(f) :: t.values[f] == s.values[f])
            && CreatedAt in t.values && t.values[CreatedAt] == (if CreatedAt in s.values then s.values[CreatedAt] else Dt(now))
            && (s.isNew ==> UpdatedAt in t.values && t.values[UpdatedAt] == t.values[CreatedAt])
            && (!s.isNew && (s.modified != {} || CreatedAt !in s.values) ==>
                  UpdatedAt in t.values && t.values[UpdatedAt] == Dt(now))
            && (!s.isNew && s.modified == {} && CreatedAt in s.values ==> t == s)
  {
  }

  /** The string a string path holds, if it holds one. */
  function StrAt(s: DocState, f: Field, otherwise: string): string {
    if f in s.values && s.values[f].Str? then s.values[f].s else otherwise
  }

  /** The date a date path holds, if it holds one. */
  function DateAt(s: DocState, f: Field, otherwise: Date): Date {
    if f in s.values && s.values[f].Dt? then s.values[f].d else otherwise
  }

  /**
   * The record a save writes over `base`: every path the document holds,
   * except that a stored document keeps the username of `base`. For a new
   * document `base` only supplies what the document lacks.
   */
  function Written(base: UserRecord, t: DocState): UserRecord {
    UserRecord(
      StrAt(t, FirstName, base.firstName), StrAt(t, LastName, base.lastName),
      DateAt(t, BirthDate, base.birthDate), StrAt(t, Email, base.email),
      StrAt(t, Password, base.password),
      if t.isNew then StrAt(t, Username, base.username) else base.username,
      DateAt(t, CreatedAt, base.createdAt), DateAt(t, UpdatedAt, base.updatedAt))
  }

  /** Some record other than the one at `skip` shares the username or the email of `rec`. */
  predicate Clashes(records: seq<UserRecord>, rec: UserRecord, skip: int) {
    exists j | 0 <= j < |records| && j != skip ::
      records[j].username == rec.username || records[j].email == rec.email
  }

  /** Why a save fails. */
  datatype SaveError =
    | ValidationError(paths: set<Field>)   // the paths that failed validation
    | DuplicateKey                         // a unique index rejected the write
    | DocumentNotFound                     // the stored document is gone

  datatype SaveResult = Saved(records: seq<UserRecord>, doc: DocState) | Failed(error: SaveError)

  /** Any record, standing in for the fields a new document always supplies. */
  const Placeholder: UserRecord :=
    UserRecord("", "", DateTime(1970, 0, 1, 0), "", "", "", DateTime(1970, 0, 1, 0), DateTime(1970, 0, 1, 0))

  /** The document as a successful save leaves it: no longer new, nothing modified. */
  function Done(t: DocState): DocState {
    t.(isNew := false, modified := {})
  }

  /** A well-formed document holding a username is still well formed once saved. */
  lemma DoneWellFormed(t: DocState)
    requires Username in t.values
    ensures WellFormed(t) ==> WellFormed(Done(t))
  {
  }

  /** The write of a new document: an insert, unless a unique index rejects it. */
  function Insert(records: seq<UserRecord>, t: DocState): (r: SaveResult)
    ensures r.Failed? <==> Clashes(records, Written(Placeholder, t), -1)
    ensures r.Failed? ==> r.error == DuplicateKey
    ensures r.Saved? ==> r.doc == Done(t) && |r.records| == |records| + 1 && r.records[..|records|] == records
  {
    var rec := Written(Placeholder, t);
    if Clashes(records, rec, -1) then Failed(DuplicateKey) else Saved(records + [rec], Done(t))
  }

  /** The write of a stored document: nothing when nothing was modified, else an update in place. */
  function Update(records: seq<UserRecord>, t: DocState): (r: SaveResult)
    requires Username in t.values && t.values[Username].Str?
    ensures r.Failed? ==> r.error == DuplicateKey || r.error == DocumentNotFound
    ensures r == Failed(DocumentNotFound) <==> t.modified != {} && FindUser(records, t.values[Username].s).None?
    ensures r == Failed(DuplicateKey) <==>
              && t.modified != {}
              && var i := FindUser(records, t.values[Username].s);
                 i.Some? && Clashes(records, Written(records[i.value], t), i.value)
    ensures r.Saved? ==> r.doc == Done(t) && |r.records| == |records| && (t.modified == {} ==> r.records == records)
    ensures r.Saved? && WellFormed(t) ==> WellFormed(r.doc)
  {
    DoneWellFormed(t);
    if t.modified == {} then Saved(records, Done(t))
    else match FindUser(records, t.values[Username].s)
      case None => Failed(DocumentNotFound)
      case Some(i) =>
        var rec := Written(records[i], t);
        if Clashes(records, rec, i) then Failed(DuplicateKey) else Saved(records[i := rec], Done(t))
  }

  /**
   * `doc.save()`: validation, then the timestamps and the pre-save hook, then
   * the write. A new document is inserted; a stored one is updated in place
   * when something was modified. A unique index rejects a username or email
   * another record already has. A saved document is no longer new and has
   * nothing modified.
   */
  function SaveSpec(records: seq<UserRecord>, s: DocState, now: Date, svc: Services): (r: SaveResult)
    requires WellFormed(s)
    ensures InvalidPaths(s, svc.isEmail) != {} <==> r.Failed? && r.error.ValidationError?
    ensures r.Failed? && r.error.ValidationError? ==> r.error.paths == InvalidPaths(s, svc.isEmail)
    ensures r.Saved? ==> WellFormed(r.doc) && !r.doc.isNew && r.doc.modified == {}
    ensures r.Saved? ==> s.values.Keys <= r.doc.values.Keys
    ensures r.Saved? && s.isNew ==> forall f: Field :: f in r.doc.values
    ensures r.Saved? && s.isNew ==> |r.records| == |records| + 1 && r.records[..|records|] == records
    ensures r.Saved? && !s.isNew ==> |r.records| == |records|
    ensures r.Saved? && !s.isNew && s.modified == {} && CreatedAt in s.values ==> r.records == records
  {
    var bad := InvalidPaths(s, svc.isEmail);
    if bad != {} then Failed(ValidationError(bad)) else Write(records, s, now, svc)
  }

  /**
   * The steps of a save after validation: the timestamps and the password
   * hook, then the insert or the update. Mongoose runs the timestamps first;
   * the two touch different paths and commute (`HookAndStampCommute`), so
   * they are composed here with the hook innermost.
   */
  function Write(records: seq<UserRecord>, s: DocState, now: Date, svc: Services): (r: SaveResult)
    requires WellFormed(s) && InvalidPaths(s, svc.isEmail) == {}
    ensures r.Failed? ==> !r.error.ValidationError?
    ensures r.Saved? ==> WellFormed(r.doc) && !r.doc.isNew && r.doc.modified == {}
    ensures r.Saved? ==> s.values.Keys <= r.doc.values.Keys
    ensures r.Saved? && s.isNew ==> forall f: Field :: f in r.doc.values
    ensures r.Saved? && s.isNew ==> |r.records| == |records| + 1 && r.records[..|records|] == records
    ensures r.Saved? && !s.isNew ==> |r.records| == |records|
    ensures r.Saved? && !s.isNew && s.modified == {} && CreatedAt in s.values ==> r.records == records
  {
    var t := Stamp(PreSaveHook(s, svc.encryptPassword), now);
    if s.isNew then WriteNew(records, s, now, svc) else WriteStored(records, s, now, svc)
  }

  /** The write of a new document: it holds every path once stamped, and is inserted. */
  function WriteNew(records: seq<UserRecord>, s: DocState, now: Date, svc: Services): (r: SaveResult)
    requires WellFormed(s) && s.isNew && InvalidPaths(s, svc.isEmail) == {}
    ensures r == Insert(records, Stamp(PreSaveHook(s, svc.encryptPassword), now))
    ensures r.Failed? ==> !r.error.ValidationError?
    ensures r.Saved? ==> WellFormed(r.doc) && !r.doc.isNew && r.doc.modified == {}
    ensures r.Saved? ==> s.values.Keys <= r.doc.values.Keys && forall f: Field :: f in r.doc.values
    ensures r.Saved? ==> |r.records| == |records| + 1 && r.records[..|records|] == records
  {
    var h := PreSaveHook(s, svc.encryptPassword);
    StampSetsTimestamps(h, now);
    Validated(s, svc.isEmail);
    var t := Stamp(h, now);
    assert forall f: Field :: f in t.values;
    DoneWellFormed(t);
    Insert(records, t)
  }

  /** The write of a stored document: an update, which writes nothing when nothing is modified. */
  function WriteStored(records: seq<UserRecord>, s: DocState, now: Date, svc: Services): (r: SaveResult)
    requires WellFormed(s) && !s.isNew
    ensures var t := Stamp(PreSaveHook(s, svc.encryptPassword), now);
            Username in t.values && t.values[Username].Str? && r == Update(records, t)
    ensures r.Failed? ==> !r.error.ValidationError?
    ensures r.Saved? ==> WellFormed(r.doc) && !r.doc.isNew && r.doc.modified == {}
    ensures r.Saved? ==> s.values.Keys <= r.doc.values.Keys
    ensures r.Saved? ==> |r.records| == |records|
    ensures r.Saved? && s.modified == {} && CreatedAt in s.values ==> r.records == records
  {
    var h := PreSaveHook(s, svc.encryptPassword);
    StampSetsTimestamps(h, now);
    var t := Stamp(h, now);
    assert Username in t.values && t.values[Username] == s.values[Username];
    assert s.modified == {} && CreatedAt in s.values ==> t.modified == {};
    Update(records, t)
  }

  /** A document that passes validation is written as it stands after the hook and the timestamps. */
  lemma SaveSpecWrite(records: seq<UserRecord>, s: DocState, now: Date, svc: Services)
    requires WellFormed(s) && InvalidPaths(s, svc.isEmail) == {}
    ensures var t := Stamp(PreSaveHook(s, svc.encryptPassword), now);
            && (s.isNew ==> SaveSpec(records, s, now, svc) == Insert(records, t))
            && (!s.isNew ==> Username in t.values && t.values[Username].Str?
                             && SaveSpec(records, s, now, svc) == Update(records, t))
  {
  }

  /** The paths a document holds, the password aside, pass their validators. */
  predicate HeldValid(t: DocState, isEmail: string -> bool) {
    forall f | f in t.values && f != Password :: FieldValid(f, t.values[f], isEmail)
  }

  /**
   * The record written from a validated document is valid: over a valid
   * stored record, or on its own when the document is new and complete.
   */
  lemma WrittenValid(base: UserRecord, t: DocState, isEmail: string -> bool)
    requires WellFormed(t) && HeldValid(t, isEmail)
    requires t.isNew ==> forall f: Field :: f in t.values
    requires !t.isNew ==> ValidRecord(base, isEmail)
    ensures ValidRecord(Written(base, t), isEmail)
  {
    if t.isNew {
      assert FirstName in t.values && LastName in t.values && Email in t.values && Username in t.values;
    }
  }

  /** Appending a valid record that clashes with none keeps the collection valid. */
  lemma AppendKeepsStoreValid(records: seq<UserRecord>, rec: UserRecord, isEmail: string -> bool)
    requires StoreValid(records, isEmail) && ValidRecord(rec, isEmail) && !Clashes(records, rec, -1)
    ensures StoreValid(records + [rec], isEmail)
  {
    var after := records + [rec];
    forall i, j | 0 <= i < j < |after|
      ensures after[i].username != after[j].username && after[i].email != after[j].email
    {
      if j == |records| {
        assert after[i] == records[i];
      }
    }
  }

  /** Replacing record `i` by a valid record that clashes with no other keeps the collection valid. */
  lemma ReplaceKeepsStoreValid(records: seq<UserRecord>, i: int, rec: UserRecord, isEmail: string -> bool)
    requires 0 <= i < |records|
    requires StoreValid(records, isEmail) && ValidRecord(rec, isEmail) && !Clashes(records, rec, i)
    ensures StoreValid(records[i := rec], isEmail)
  {
    var after := records[i := rec];
    forall j, k | 0 <= j < k < |after|
      ensures after[j].username != after[k].username && after[j].email != after[k].email
    {
      if j == i {
        assert after[k] == records[k];
      } else if k == i {
        assert after[j] == records[j];
      }
    }
  }

  /** A successful save keeps every record valid and usernames and emails unique. */
  lemma SaveKeepsStoreValid(records: seq<UserRecord>, s: DocState, now: Date, svc: Services)
    requires StoreValid(records, svc.isEmail) && WellFormed(s)
    requires SaveSpec(records, s, now, svc).Saved?
    ensures StoreValid(SaveSpec(records, s, now, svc).records, svc.isEmail)
  {
    Validated(s, svc.isEmail);
    var h := PreSaveHook(s, svc.encryptPassword);
    var t := Stamp(h, now);
    assert HeldValid(h, svc.isEmail);
    StampKeepsHeldValid(h, now, svc.isEmail);
    StampSetsTimestamps(h, now);
    SaveSpecWrite(records, s, now, svc);
    if s.isNew {
      InsertKeepsStoreValid(records, t, svc.isEmail);
    } else {
      UpdateKeepsStoreValid(records, t, svc.isEmail);
    }
  }

  /** The timestamps step keeps the held paths valid: it sets only dates. */
  lemma StampKeepsHeldValid(h: DocState, now: Date, isEmail: string -> bool)
    requires WellFormed(h) && HeldValid(h, isEmail)
    ensures HeldValid(Stamp(h, now), isEmail)
  {
    StampSetsTimestamps(h, now);
    var t := Stamp(h, now);
    forall f | f in t.values && f != Password ensures FieldValid(f, t.values[f], isEmail) {
      if IsTimestamp(f) {
        assert KindOk(f, t.values[f]);
      } else {
        assert t.values[f] == h.values[f];
      }
    }
  }

  /** An insert of a complete, valid new document keeps the collection valid. */
  lemma InsertKeepsStoreValid(records: seq<UserRecord>, t: DocState, isEmail: string -> bool)
    requires StoreValid(records, isEmail) && WellFormed(t) && HeldValid(t, isEmail)
    requires t.isNew && forall f: Field :: f in t.values
    requires Insert(records, t).Saved?
    ensures StoreValid(Insert(records, t).records, isEmail)
  {
    var rec := Written(Placeholder, t);
    WrittenValid(Placeholder, t, isEmail);
    AppendKeepsStoreValid(records, rec, isEmail);
  }

  /** An update of a stored document whose paths are valid keeps the collection valid. */
  lemma UpdateKeepsStoreValid(records: seq<UserRecord>, t: DocState, isEmail: string -> bool)
    requires StoreValid(records, isEmail) && WellFormed(t) && HeldValid(t, isEmail) && !t.isNew
    requires Username in t.values && t.values[Username].Str?
    requires Update(records, t).Saved?
    ensures StoreValid(Update(records, t).records, isEmail)
  {
    if t.modified != {} {
      var i := FindUser(records, t.values[Username].s).value;
      WrittenValid(records[i], t, isEmail);
      ReplaceKeepsStoreValid(records, i, Written(records[i], t), isEmail);
    }
  }

  /**
   * Saving a new document stores the hash of the password it was given,
   * together with the names, birth date, email and username it holds; its
   * `createdAt` is the one the document was given, or else `now`, and its
   * `updatedAt` equals its `createdAt`.
   */
  lemma SaveNewStoresHash(records: seq<UserRecord>, s: DocState, now: Date, svc: Services)
    requires WellFormed(s) && s.isNew
    requires SaveSpec(records, s, now, svc).Saved?
    ensures var after := SaveSpec(records, s, now, svc).records;
            var rec := after[|records|];
            && FirstName in s.values && LastName in s.values && BirthDate in s.values
            && Email in s.values && Password in s.values && Username in s.values
            && rec.password == Trim(svc.encryptPassword(s.values[Password].s))
            && s.values[FirstName] == Str(rec.firstName) && s.values[LastName] == Str(rec.lastName)
            && s.values[BirthDate] == Dt(rec.birthDate) && s.values[Email] == Str(rec.email)
            && s.values[Username] == Str(rec.username)
            && Dt(rec.createdAt) == (if CreatedAt in s.values then s.values[CreatedAt] else Dt(now))
            && rec.updatedAt == rec.createdAt
  {
    Validated(s, svc.isEmail);
    var t := Stamp(PreSaveHook(s, svc.encryptPassword), now);
    SaveSpecWrite(records, s, now, svc);
    InsertAppends(records, t);
    WrittenNewDoc(s, now, svc.encryptPassword);
  }

  /** A successful insert appends the record written from the document. */
  lemma InsertAppends(records: seq<UserRecord>, t: DocState)
    requires Insert(records, t).Saved?
    ensures Insert(records, t).records[|records|] == Written(Placeholder, t)
  {
  }

  /**
   * The record written for a new document holding every path but the
   * timestamps: its paths as the document holds them, the password hashed,
   * and the timestamps as the timestamps step sets them.
   */
  lemma WrittenNewDoc(s: DocState, now: Date, encrypt: string -> string)
    requires WellFormed(s) && s.isNew
    requires FirstName in s.values && LastName in s.values && BirthDate in s.values
    requires Email in s.values && Password in s.values && Username in s.values
    ensures var rec := Written(Placeholder, Stamp(PreSaveHook(s, encrypt), now));
            && rec.password == Trim(encrypt(s.values[Password].s))
            && s.values[FirstName] == Str(rec.firstName) && s.values[LastName] == Str(rec.lastName)
            && s.values[BirthDate] == Dt(rec.birthDate) && s.values[Email] == Str(rec.email)
            && s.values[Username] == Str(rec.username)
            && Dt(rec.createdAt) == (if CreatedAt in s.values then s.values[CreatedAt] else Dt(now))
            && rec.updatedAt == rec.createdAt
  {
    var h := PreSaveHook(s, encrypt);
    StampSetsTimestamps(h, now);
    assert Password in s.modified;
    assert h.values[Password] == Str(Trim(encrypt(s.values[Password].s)));
    assert CreatedAt in h.values <==> CreatedAt in s.values;
    assert CreatedAt in s.values ==> h.values[CreatedAt] == s.values[CreatedAt];
  }

  /**
   * Saving a stored document that holds no password leaves every stored
   * password as it was.
   */
  lemma SaveStoredKeepsPasswords(records: seq<UserRecord>, s: DocState, now: Date, svc: Services)
    requires WellFormed(s) && !s.isNew && Password !in s.values
    requires SaveSpec(records, s, now, svc).Saved?
    ensures var after := SaveSpec(records, s, now, svc).records;
            forall j | 0 <= j < |records| :: after[j].password == records[j].password
  {
    var h := PreSaveHook(s, svc.encryptPassword);
    assert h == s;
    var t := Stamp(h, now);
    StampSetsTimestamps(h, now);
    assert Password !in t.values;
    SaveSpecWrite(records, s, now, svc);
    UpdateKeepsPasswordsOfPasswordless(records, t);
  }

  /** An update of a document that holds no password writes no password. */
  lemma UpdateKeepsPasswordsOfPasswordless(records: seq<UserRecord>, t: DocState)
    requires Username in t.values && t.values[Username].Str? && Password !in t.values
    requires Update(records, t).Saved?
    ensures var after := Update(records, t).records;
            |after| == |records| && forall j | 0 <= j < |records| :: after[j].password == records[j].password
  {
    if t.modified != {} {
      var i := FindUser(records, t.values[Username].s).value;
      assert Update(records, t).records == records[i := Written(records[i], t)];
    }
  }

  /**
   * A successful update of a modified document writes over the record with
   * its username: the username stays, the password and `updatedAt` are the
   * document's.
   */
  lemma UpdateWritesRecord(records: seq<UserRecord>, t: DocState) returns (i: nat)
    requires !t.isNew && t.modified != {} && UpdatedAt in t.values && t.values[UpdatedAt].Dt?
    requires Username in t.values && t.values[Username].Str?
    requires Password in t.values && t.values[Password].Str?
    requires Update(records, t).Saved?
    ensures i < |records| && records[i].username == t.values[Username].s
    ensures |Update(records, t).records| == |records|
    ensures var rec := Update(records, t).records[i];
            && rec.username == records[i].username
            && Str(rec.password) == t.values[Password]
            && Dt(rec.updatedAt) == t.values[UpdatedAt]
  {
    i := FindUser(records, t.values[Username].s).value;
    assert Update(records, t).records == records[i := Written(records[i], t)];
  }

  /** On a stored document with an assigned password, the hook and the timestamps together. */
  lemma HookAndStampOnStored(s: DocState, now: Date, encrypt: string -> string)
    requires WellFormed(s) && !s.isNew && Password in s.modified
    ensures var t := Stamp(PreSaveHook(s, encrypt), now);
            && !t.isNew && s.modified <= t.modified && UpdatedAt in t.values && t.values[UpdatedAt] == Dt(now)
            && t.values[Username] == s.values[Username]
            && t.values[Password] == PreSaveHook(s, encrypt).values[Password]
  {
  }

  /**
   * Saving a stored document that was assigned a password stores the value
   * the pre-save hook gave it (the hash of the new password), and the new
   * `updatedAt`, in that user's record.
   */
  lemma SaveStoredHashesPassword(records: seq<UserRecord>, s: DocState, now: Date, svc: Services)
    requires WellFormed(s) && !s.isNew && Password in s.modified
    requires SaveSpec(records, s, now, svc).Saved?
    ensures var after := SaveSpec(records, s, now, svc).records;
            exists i | 0 <= i < |records| ::
              && records[i].username == s.values[Username].s
              && after[i].username == records[i].username
              && Str(after[i].password) == PreSaveHook(s, svc.encryptPassword).values[Password]
              && after[i].updatedAt == now
  {
    var t := Stamp(PreSaveHook(s, svc.encryptPassword), now);
    HookAndStampOnStored(s, now, svc.encryptPassword);
    assert SaveSpec(records, s, now, svc) == Update(records, t);
    var i := UpdateWritesRecord(records, t);
  }

  /** Assigning a body to a stored document keeps its username. */
  lemma {:induction false} AssignAllKeepsUsername(s: DocState, body: Body)
    requires !s.isNew && Username in s.values
    ensures Username in AssignAll(s, body).values
    ensures AssignAll(s, body).values[Username] == s.values[Username]
  {
    if body != [] {
      AssignAllKeepsUsername(s, body[..|body| - 1]);
    }
  }

  /**
   * Saving a stored document never changes a stored username, and touches
   * no record but the one holding the document's username.
   */
  lemma SaveStoredTouchesOnlyItsRecord(records: seq<UserRecord>, s: DocState, now: Date, svc: Services)
    requires WellFormed(s) && !s.isNew
    requires SaveSpec(records, s, now, svc).Saved?
    ensures var after := SaveSpec(records, s, now, svc).records;
            && |after| == |records|
            && (forall j | 0 <= j < |records| :: after[j].username == records[j].username)
            && (forall j | 0 <= j < |records| && Str(records[j].username) != s.values[Username] :: after[j] == records[j])
  {
    var t := Stamp(PreSaveHook(s, svc.encryptPassword), now);
    assert t.values[Username] == s.values[Username];
    assert SaveSpec(records, s, now, svc) == Update(records, t);
  }

  /** A new document cannot be saved under a username the collection already holds. */
  lemma SaveNewRejectsTakenUsername(records: seq<UserRecord>, s: DocState, now: Date, svc: Services, j: int)
    requires WellFormed(s) && s.isNew && 0 <= j < |records|
    requires Username in s.values && s.values[Username] == Str(records[j].username)
    ensures SaveSpec(records, s, now, svc).Failed?
  {
    if InvalidPaths(s, svc.isEmail) == {} {
      var t := Stamp(PreSaveHook(s, svc.encryptPassword), now);
      assert t.values[Username] == s.values[Username];
      var rec := Written(Placeholder, t);
      assert rec.username == records[j].username;
      assert Clashes(records, rec, -1);
      Validated(s, svc.isEmail);
      assert SaveSpec(records, s, now, svc) == Insert(records, t);
    }
  }

  /** Some stored record already has the document's username or its email. */
  predicate TakenBy(records: seq<UserRecord>, s: DocState) {
    exists j | 0 <= j < |records| ::
      || (Username in s.values && s.values[Username] == Str(records[j].username))
      || (Email in s.values && s.values[Email] == Str(records[j].email))
  }

  /**
   * A valid new document is saved exactly when no stored record has its
   * username or its email; otherwise the unique index rejects it.
   */
  lemma SaveNewOutcome(records: seq<UserRecord>, s: DocState, now: Date, svc: Services)
    requires WellFormed(s) && s.isNew && InvalidPaths(s, svc.isEmail) == {}
    ensures SaveSpec(records, s, now, svc).Saved? <==> !TakenBy(records, s)
    ensures SaveSpec(records, s, now, svc).Failed? ==> SaveSpec(records, s, now, svc).error == DuplicateKey
  {
    Validated(s, svc.isEmail);
    var t := Stamp(PreSaveHook(s, svc.encryptPassword), now);
    SaveSpecWrite(records, s, now, svc);
    WrittenNewDoc(s, now, svc.encryptPassword);
    var rec := Written(Placeholder, t);
    assert Clashes(records, rec, -1) <==> TakenBy(records, s) by {
      forall j | 0 <= j < |records|
        ensures (records[j].username == rec.username || records[j].email == rec.email)
                <==> (s.values[Username] == Str(records[j].username) || s.values[Email] == Str(records[j].email))
      {
      }
    }
  }

  /**
   * A document whose state lives in its fields; the methods are the steps
   * of assignment and saving, each specified by the function above it.
   */
  class UserDocument {
    var isNew: bool
    var values: map<Field, Value>
    var modified: set<Field>
    var castErrors: set<Field>

    function State(): DocState
      reads this
    {
      DocState(isNew, values, modified, castErrors)
    }

    /** `new User(body)`: the defaults, then each key of the body assigned in turn. */
    constructor FromBody(body: Body)
      ensures State() == NewDocState(body)
    {
      isNew, values, modified, castErrors := Blank.isNew, Blank.values, Blank.modified, Blank.castErrors;
      new;
      SetEach(body);
    }

    /** A document hydrated from a stored record. */
    constructor Hydrate(rec: UserRecord, withSecrets: bool)
      ensures State() == LoadedState(rec, withSecrets)
    {
      var s := LoadedState(rec, withSecrets);
      isNew, values, modified, castErrors := s.isNew, s.values, s.modified, s.castErrors;
    }

    /** `doc[key] = v`. */
    method Set(key: string, v: Value)
      modifies this
      ensures State() == AssignKey(old(State()), key, v)
    {
      match SchemaPath(key) {
        case None =>
        case Some(f) =>
          if f == Username && !isNew {
          } else if !KindOk(f, v) {
            castErrors := castErrors + {f};
          } else {
            var c := Cast(f, v).value;
            if !(f in values && values[f] == c) {
              modified := modified + {f};
            }
            values := values[f := c];
          }
      }
    }

    /** Each entry of a body assigned in order, as the constructor and a `forEach` over the body's keys do. */
    method SetEach(body: Body)
      modifies this
      ensures State() == AssignAll(old(State()), body)
    {
      ghost var start := State();
      var i := 0;
      while i < |body|
        invariant 0 <= i <= |body|
        invariant State() == AssignAll(start, body[..i])
      {
        Set(body[i].0, body[i].1);
        assert body[..i + 1][..i] == body[..i];
        i := i + 1;
      }
      assert body[..|body|] == body;
    }

    /** The pre-save hook of the user schema. */
    method RunPreSaveHook(encrypt: string -> string)
      requires WellFormed(State())
      modifies this
      ensures State() == PreSaveHook(old(State()), encrypt)
    {
      if Password in modified {
        values := values[Password := Str(Trim(encrypt(values[Password].s)))];
      }
    }

    /** The timestamps step of a save. */
    method ApplyTimestamps(now: Date)
      modifies this
      ensures State() == Stamp(old(State()), now)
    {
      if CreatedAt !in values {
        values, modified := values[CreatedAt := Dt(now)], modified + {CreatedAt};
      }
      if isNew {
        values, modified := values[UpdatedAt := values[CreatedAt]], modified + {UpdatedAt};
      } else if modified != {} {
        values, modified := values[UpdatedAt := Dt(now)], modified + {UpdatedAt};
      }
    }

    /** After a successful write: no longer new, nothing modified. */
    method MarkSaved()
      modifies this
      ensures State() == old(State()).(isNew := false, modified := {})
    {
      isNew, modified := false, {};
    }
  }
}
