# express-typescript-starter user service, in Dafny

This project models the core of an Express and Mongoose starter service. That core is the `/users` REST resource and the helpers beside it.

- **User schema** (`models/user/user.ts`):
  - six declared paths and the two date paths `createdAt` and `updatedAt` that the `timestamps` option adds, each with its casting, setters (`trim`, `lowercase`) and validators (`required`, `minlength`/`maxlength`, `isEmail`);
  - the `age` and `fullName` virtuals;
  - the `sameBirthDateCount` method and the `newMonthlyUsers` static.
- **Pre-save hook** (`models/user/user.model.ts`): it hashes the password whenever that path was modified.
- **Controller** (`controllers/users/user.controller.ts`): four handlers over one collection.
  - `createUser`, `readUser`, `updateUser` and `deleteUser`.
  - Each produces a status and a body and leaves a new collection behind.
- **`ModDate`** (`utils/dateUtils.ts`): the month helper with its own leap-year rule.
- **Environment classification** (`config/getNodeEnv.ts`): maps a `NODE_ENV` value to an environment name.
- **Request log serializer** (`shared/logging/serializers/reqSerializer.ts`) and its `isEmptyObject` test.
- **Error middleware** (`shared/middlewares/error.middleware.ts`) and the `HttpException` family.

## Layout

| file | module | contents |
|---|---|---|
| `wrappers.dfy` | `Wrappers` | `Option` |
| `text.dfy` | `Text` | JavaScript `trim`, lower-casing, the substring test of a literal regular expression |
| `calendar.dfy` | `Calendar` | JavaScript `Date`: Gregorian day numbers, `new Date(y, m, d)` with its roll-over and two-digit-year rule, time values and their order |
| `mod_date.dfy` | `ModDates` | the `ModDate` class, as a value |
| `node_env.dfy` | `NodeEnv` | `getNodeEnv` |
| `json.dfy` | `Json` | JSON values, `isEmptyObject` |
| `req_serializer.dfy` | `ReqSerializer` | `reqSerializer` |
| `error_middleware.dfy` | `ErrorMiddleware` | `HttpException`, its subclasses, `errorMiddleware` |
| `user.dfy` | `UserSchema` | schema paths, casting and validation, stored records, virtuals, the two counts |
| `user_document.dfy` | `UserDocuments` | a Mongoose document: path assignment, the pre-save hook, timestamps, the save, and the `UserDocument` class that performs them in place |
| `user_controller.dfy` | `UserController` | the JSON a document serializes to, the specification of each handler, and the `UserStore` class whose methods run the handlers |

### How the pieces fit

- **Imperative form where the source mutates.**
  - A Mongoose document is mutated in place, path by path, so it is a class: `UserDocuments.UserDocument`.
  - Its methods `Set`, `SetEach`, `RunPreSaveHook`, `ApplyTimestamps` and `MarkSaved` are each proved against a function on the document's state: `AssignKey`, `AssignAll`, `PreSaveHook` and `Stamp`.
  - The loop `updateUser` runs over the body's keys is `SetEach`, a `while` loop whose invariant ties the state to `AssignAll` of the keys seen so far.
  - The collection is the `records` field of `UserController.UserStore`.
  - Each handler method is proved to produce the response and the collection that a specification function (`CreateOutcome`, `ReadResponse`, `UpdateResponse`/`UpdateRecords`, `DeleteOutcome`) gives.
  - The handlers also keep the store invariant `StoreValid`: every record valid, and usernames and emails unique.
- **Pure form elsewhere.** `ModDate`, `getNodeEnv`, `isEmptyObject`, `reqSerializer` and the error middleware compute values, so they are functions.
- **Time as an input.** The clock (`Date.now()`, `new Date()`) is a parameter `now`.
- **External services as function values.** bcrypt (`AuthService.encryptPassword`), the `isEmail` validator and `capitalizeFirstCharacter` are fields of `UserSchema.Services`. Nothing is assumed about them beyond being functions.
- **Mongoose behaviour, written out as definitions:**
  - a key that is not a schema path touches no path: strict mode drops it from `new User(body)`, and on a loaded document `doc[key] = v` makes it a plain property that neither the save nor `toJSON` reads;
  - a query filter on `username` is cast through the path's setters, so `findOne({ username })` and `findOneAndDelete({ username })` look up the trimmed name;
  - an `immutable` path keeps its value on a stored document;
  - `select: false` leaves email and password out of a default load;
  - validation runs before the pre-save hook;
  - `isModified` holds when a path has been assigned a new value;
  - a unique index turns a clash into a failed save;
  - `timestamps` adds `createdAt` and `updatedAt` as ordinary date paths, which a body may assign. On save, `createdAt` is set to `now` only when it is unset; `updatedAt` is set to `createdAt` on a new document and to `now` on a stored one that has a modified path (or lacks `createdAt`). Each path so set counts as modified. This is the behaviour of Mongoose 5, where `createdAt` is not immutable.

### Where the code departs from the design (the model follows the code)

- **`readUser` discloses secrets.** It loads the user with `"+password +email"` (user.controller.ts:34). Its transform deletes only `firstName` and `lastName` (user.controller.ts:51-52). The 200 body therefore holds the stored email and the password hash (`UserController.ReadDisclosesSecrets`), although both paths are `select: false` (user.ts:69, user.ts:81) and the design intends neither to appear in output.
- **Update failures are 500.** The catch block of `updateUser` answers 500 (user.controller.ts:84-86), so an update the validators reject is answered 500, where the design calls for 400.
- **An empty update body is sent 400, then saved anyway.** After sending 400 for an empty body, `updateUser` does not return (user.controller.ts:76-78). It goes on to save the unchanged document, which writes nothing (`UserController.UpdateEmptyBodyWritesNothing`). It then tries to send a 200, which the model leaves out because a response can only be sent once.
- **No field whitelist.** `updateUser` assigns every key of the body (user.controller.ts:79-81). No `WrongUpdatesException` is raised. A key that is not a schema path becomes a plain property of the document, which the save and the response ignore; keys naming the document's own members are left out of the model (see Left out). A body may also assign `createdAt` and `updatedAt` like any other path. A new `username` is ignored because the path is immutable (`UserDocuments.UsernameImmutable`).
- **The leap-year rule is reproduced as written** (see Findings).

## Model

| member | source | states |
|---|---|---|
| `Calendar.DaysInMonth` | express-typescript-starter/src/utils/dateUtils.ts:24 | the length of a month under JavaScript's Gregorian calendar: 28 to 31 days, and 29 exactly in February of a Gregorian leap year |
| `Calendar.RollDay` | express-typescript-starter/src/utils/dateUtils.ts:24 | `new Date` rolls an out-of-range day into neighbouring months; an in-range day gives that very date at midnight |
| `Calendar.NewDate` | express-typescript-starter/src/utils/dateUtils.ts:20 | `new Date(year, month, day)` with a valid month and day is that date, at midnight, with years 0 to 99 read as 1900 to 1999 |
| `Calendar.LeapYearsStep` | express-typescript-starter/src/utils/dateUtils.ts:45-47 | the count of Gregorian leap years grows by one exactly across a leap year |
| `Calendar.MultiplesStep` | express-typescript-starter/src/utils/dateUtils.ts:45-47 | the count of multiples of 4, 100 or 400 below a year grows by one exactly across a multiple |
| `Calendar.QuadCenturyIsCentury` | express-typescript-starter/src/utils/dateUtils.ts:45-47 | a year divisible by 400 is divisible by 100 |
| `Calendar.CenturyIsLeapCandidate` | express-typescript-starter/src/utils/dateUtils.ts:45-47 | a year divisible by 100 is divisible by 4 |
| `Calendar.FirstOfNextMonth` | express-typescript-starter/src/utils/dateUtils.ts:27-29 | the first of the next month is the length of this month after the first of this month |
| `Calendar.RollDayNumber` | express-typescript-starter/src/utils/dateUtils.ts:24 | rolling a day of any size lands on the day number `day - 1` days after the first of the month |
| `Calendar.NewDateTimeValue` | express-typescript-starter/src/models/user/user.ts:37-38 | the time value of `new Date(y, m, d)` for any month and day, out of range ones included |
| `Calendar.MonthStartMonotone` | express-typescript-starter/src/models/user/user.ts:37-38 | months follow one another: each month ends at or before the start of any later month |
| `Calendar.DayNumberOrder` | express-typescript-starter/src/models/user/user.ts:37-38 | a date in an earlier month has a smaller day number |
| `Calendar.TimeValueOrder` | express-typescript-starter/src/models/user/user.ts:37-38 | comparing time values, as `$gte`/`$lt` on dates do, orders dates exactly as the calendar does |
| `Calendar.TimeValueInjective` | express-typescript-starter/src/models/user/user.ts:28 | two valid dates with the same time value are the same date, so an equality filter on `birthDate` matches equal dates only |
| `Calendar.MonthWindow` | express-typescript-starter/src/models/user/user.ts:35-40 | a date lies in `[new Date(y, m, 1), new Date(y, m + 1, 1))` exactly when it falls in month `m` of year `y` |
| `ModDates.NewModDate` | express-typescript-starter/src/utils/dateUtils.ts:9-13 | the constructor records the date's full year and month, and `getDate` gives the date back |
| `ModDates.ModDate.IsLeapYear` | express-typescript-starter/src/utils/dateUtils.ts:45-47 | `year % 400 == 0 \|\| year % 4 == 0` holds exactly when the year is divisible by 4 |
| `ModDates.ModDate.GetDaysInThisMonth` | express-typescript-starter/src/utils/dateUtils.ts:31-43 | 30 exactly for months 3, 5, 8, 10; 31 exactly for months 0, 2, 4, 6, 7, 9, 11; February 29 or 28 by `isLeapYear` |
| `ModDates.ModDate.GetFirstDateOfTheMonth` | express-typescript-starter/src/utils/dateUtils.ts:19-21 | the first day of the date's month at midnight |
| `ModDates.ModDate.GetFirstDateOfNextMonth` | express-typescript-starter/src/utils/dateUtils.ts:27-29 | the first of the following month, rolling December into January of the next year |
| `ModDates.ModDate.GetLastDateOfTheMonth` | express-typescript-starter/src/utils/dateUtils.ts:23-25 | day `getDaysInThisMonth()` of the month when the month is that long, otherwise 1 March (the leap-year finding) |
| `ModDates.ModDate.CorrectedLastDateOfTheMonth` | express-typescript-starter/src/utils/dateUtils.ts:23-25 | a date in the month whose next day is the first of the next month, which is the last day of the month |
| `ModDates.MonthListsPartition` | express-typescript-starter/src/utils/dateUtils.ts:3-4 | the two month lists are disjoint, and together with February they cover all twelve months |
| `ModDates.DaysInThisMonthAgreement` | express-typescript-starter/src/utils/dateUtils.ts:31-47 | `getDaysInThisMonth` agrees with the calendar except in the century years the calendar does not count as leap, where it is one more |
| `ModDates.Year1900IsLeap` | express-typescript-starter/src/utils/dateUtils.ts:45-47 | `isLeapYear` holds for 1900, which the Gregorian calendar does not count as a leap year |
| `ModDates.LastDateOfFebruary1900` | express-typescript-starter/src/utils/dateUtils.ts:23-25 | for a date in February 1900, `getLastDateOfTheMonth` is 1 March 1900, the same date as `getFirstDateOfNextMonth` |
| `ModDates.LastDateIsLastDay` | express-typescript-starter/src/utils/dateUtils.ts:23-47 | `getLastDateOfTheMonth` is the last day of the month exactly when the month is not February of a year divisible by 100 but not by 400 |
| `NodeEnv.GetNodeEnv` | express-typescript-starter/src/config/getNodeEnv.ts:3-24 | an unset variable gives "defaults"; otherwise, after lower-casing, the first of "dev", "test", "stag", "prod" it contains picks the name, each case stated as an if-and-only-if, and none of them gives "defaults" |
| `NodeEnv.CaseInsensitive` | express-typescript-starter/src/config/getNodeEnv.ts:7-15 | a value and its lower-cased form are classified alike |
| `NodeEnv.DevWins` | express-typescript-starter/src/config/getNodeEnv.ts:8-9 | any value containing "dev", in any case, is "development" whatever else it contains |
| `NodeEnv.TestBeforeProd` | express-typescript-starter/src/config/getNodeEnv.ts:10-15 | "prod-test" is "testing": the tests run in order, so "test" beats "prod" |
| `NodeEnv.EmptySelectsDefaults` | express-typescript-starter/src/config/getNodeEnv.ts:16-18 | a set but empty value is "defaults" |
| `NodeEnv.NamesAreLower` | express-typescript-starter/src/config/getNodeEnv.ts:7-18 | the five names are already lower-case |
| `NodeEnv.DevelopmentPatterns` | express-typescript-starter/src/config/getNodeEnv.ts:8-9 | "development" contains "dev" |
| `NodeEnv.TestingPatterns` | express-typescript-starter/src/config/getNodeEnv.ts:10-11 | "testing" contains "test" and not "dev" |
| `NodeEnv.StagingPatterns` | express-typescript-starter/src/config/getNodeEnv.ts:12-13 | "staging" contains "stag" and neither earlier pattern |
| `NodeEnv.ProductionLacksDevTest` | express-typescript-starter/src/config/getNodeEnv.ts:14-15 | "production" contains neither "dev" nor "test" |
| `NodeEnv.ProductionPatterns` | express-typescript-starter/src/config/getNodeEnv.ts:14-15 | "production" contains "prod" and none of the earlier patterns |
| `NodeEnv.DefaultsLacksDevTest` | express-typescript-starter/src/config/getNodeEnv.ts:16-18 | "defaults" contains neither "dev" nor "test" |
| `NodeEnv.DefaultsPatterns` | express-typescript-starter/src/config/getNodeEnv.ts:16-18 | "defaults" contains none of the four patterns |
| `NodeEnv.ClassificationIdempotent` | express-typescript-starter/src/config/getNodeEnv.ts:3-24 | classifying a name the classifier produced gives that name again |
| `Text.Trim` | express-typescript-starter/src/models/user/user.ts:52 | the result has no whitespace at either end and is the input with only whitespace cut from each end |
| `Text.TrimIdempotent` | express-typescript-starter/src/models/user/user.ts:52 | trimming an already trimmed string changes nothing |
| `Text.Lower` | express-typescript-starter/src/models/user/user.ts:50 | same length, each character lower-cased, no upper-case letter left |
| `Text.LowerSlice` | express-typescript-starter/src/models/user/user.ts:50-52 | a slice of a lower-case string is lower-case |
| `Text.TrimLowerNormal` | express-typescript-starter/src/models/user/user.ts:50-52 | the `lowercase` then `trim` setters leave a lower-case, trimmed string |
| `Text.LowerIdentity` | express-typescript-starter/src/config/getNodeEnv.ts:7 | lower-casing a string with no upper-case letter changes nothing |
| `Text.NotContains` | express-typescript-starter/src/config/getNodeEnv.ts:8-15 | a pattern whose k-th character is missing from the window where it would have to stand does not occur |
| `Text.NotContainsChar` | express-typescript-starter/src/config/getNodeEnv.ts:8-15 | a pattern holding a character absent from the string does not occur in it |
| `Json.IsEmptyObject` | express-typescript-starter/src/shared/utils/isEmptyObject.ts:2-4 | false for `undefined`; for an object, true exactly when it has no own keys; true only for a value with no own keys |
| `Json.NonEmptyObjectIsNotEmpty` | express-typescript-starter/src/shared/utils/isEmptyObject.ts:3 | an object with a key is not empty |
| `ReqSerializer.LogKeyNamesDistinct` | express-typescript-starter/src/shared/logging/serializers/reqSerializer.ts:7-14 | the six keys of the log record are distinct strings, so no entry overwrites another |
| `ReqSerializer.Serialize` | express-typescript-starter/src/shared/logging/serializers/reqSerializer.ts:5-15 | url, method and headers are always logged as given; params, query and body are each logged, unchanged, exactly when `isEmptyObject` holds of them |
| `ReqSerializer.OnlyEmptyPartsLogged` | express-typescript-starter/src/shared/logging/serializers/reqSerializer.ts:11-13 | an object part is logged exactly when it has no keys, and an absent part is never logged |
| `ErrorMiddleware.StatusOf` | express-typescript-starter/src/shared/middlewares/error.middleware.ts:12 | never 0; the error's status when it is set and not 0, and 500 otherwise |
| `ErrorMiddleware.MessageOf` | express-typescript-starter/src/shared/middlewares/error.middleware.ts:13 | never empty; the error's message when it is set and not empty, and "Something went wrong!" otherwise |
| `ErrorMiddleware.Handle` | express-typescript-starter/src/shared/middlewares/error.middleware.ts:5-18 | the body has exactly the keys `status` and `message`, `status` echoes the response status, and the status and message fall back to 500 and "Something went wrong!" |
| `ErrorMiddleware.HandleIsFixpoint` | express-typescript-starter/src/shared/middlewares/error.middleware.ts:12-17 | an exception rebuilt from a response's status and message produces the same response |
| `ErrorMiddleware.TaxonomyPassesThrough` | express-typescript-starter/src/shared/exceptions/user/userNotFound.error.ts:5-7 | each exception subclass reaches the client with its own status (404, 400, 400) and message |
| `ErrorMiddleware.BareErrorDefaults` | express-typescript-starter/src/shared/middlewares/error.middleware.ts:12-13 | an error with no status and no message is answered 500 "Something went wrong!" |
| `UserSchema.AllFieldsComplete` | express-typescript-starter/src/models/user/user.ts:44-94 | every path is one of eight: the six the schema declares and the two timestamps the `timestamps` option adds |
| `UserSchema.SchemaPath` | express-typescript-starter/src/models/user/user.ts:44-94 | a key names a path exactly when it is that path's name, `createdAt` and `updatedAt` included; no other key names a path |
| `UserSchema.Cast` | express-typescript-starter/src/models/user/user.ts:48-89 | a value of the wrong kind is a cast error; otherwise the setters leave names lower-case and trimmed and the other strings trimmed, and a date unchanged |
| `UserSchema.Age` | express-typescript-starter/src/models/user/user.ts:15-19 | the floor of the elapsed milliseconds over 365-day years, non-negative exactly when the birth date is not in the future |
| `UserSchema.AgeNotNegative` | express-typescript-starter/src/models/user/user.ts:15-19 | a birth date that is not after `now` gives an age of at least 0 |
| `UserSchema.FullName` | express-typescript-starter/src/models/user/user.ts:21-25 | the capitalized first name, one space, then the capitalized last name |
| `UserSchema.Count` | express-typescript-starter/src/models/user/user.ts:28 | at most the collection's size, and 0 exactly when no record matches |
| `UserSchema.CountCongruent` | express-typescript-starter/src/models/user/user.ts:28 | filters that agree on every record count alike |
| `UserSchema.CountWithout` | express-typescript-starter/src/models/user/user.ts:27-30 | a matching record counts for exactly one |
| `UserSchema.FindUser` | express-typescript-starter/src/controllers/users/user.controller.ts:34 | the first record whose username is exactly the given one, and none exactly when no record has it; the handlers pass it the trimmed name (`UserController.LookupTrimsUsername`) |
| `UserSchema.SameBirthDateCountCountsOthers` | express-typescript-starter/src/models/user/user.ts:27-30 | for a stored user, `count - 1` is the number of other records with the same birth date, so it is never negative |
| `UserSchema.NewMonthlyUsersIsCalendarMonth` | express-typescript-starter/src/models/user/user.ts:32-41 | the time-window count equals the number of records created in the current calendar month |
| `UserSchema.NewMonthlyUsersCountsCurrentMonth` | express-typescript-starter/src/models/user/user.ts:32-41 | a record created in the current month is counted |
| `UserDocuments.AssignKey` | express-typescript-starter/src/controllers/users/user.controller.ts:80 | assigning a key keeps newness and well-formedness, never removes a path or a modified mark, and leaves every path the key does not name, with its value and its mark, as it was |
| `UserDocuments.UnknownKeyIgnored` | express-typescript-starter/src/controllers/users/user.controller.ts:79-81 | a key that names no path leaves the document's paths, marks and cast errors unchanged: strict mode drops it from `new User(body)`, and on a loaded document it is a plain property the save ignores |
| `UserDocuments.UsernameImmutable` | express-typescript-starter/src/models/user/user.ts:88 | on a stored document, assigning `username` changes nothing |
| `UserDocuments.AssignSchemaPath` | express-typescript-starter/src/models/user/user.ts:48-89 | a value of the right kind is stored cast, and the path is marked modified exactly when its value changed; a wrong kind records a cast error |
| `UserDocuments.AssignAll` | express-typescript-starter/src/controllers/users/user.controller.ts:79-81 | assigning every key keeps newness, only adds paths and modified marks, and keeps well-formedness |
| `UserDocuments.AssignAllLeavesOtherPaths` | express-typescript-starter/src/controllers/users/user.controller.ts:79-81 | a path no key of the body names keeps its value and its modified mark |
| `UserDocuments.AssignNothing` | express-typescript-starter/src/controllers/users/user.controller.ts:75-81 | an empty body changes nothing |
| `UserDocuments.AssignAllKeepsUsername` | express-typescript-starter/src/models/user/user.ts:88 | no body changes a stored document's username |
| `UserDocuments.NewDocState` | express-typescript-starter/src/controllers/users/user.controller.ts:22 | `new User(body)` is a new, well-formed document |
| `UserDocuments.NewDocLacksUnnamedTimestamp` | express-typescript-starter/src/controllers/users/user.controller.ts:22 | a new document holds a timestamp only when its body names it |
| `UserDocuments.NewDocTakesBodyTimestamp` | express-typescript-starter/src/models/user/user.ts:94 | a body whose last entry gives a timestamp a date makes the new document hold that date |
| `UserDocuments.LoadedState` | express-typescript-starter/src/controllers/users/user.controller.ts:34 | a loaded document holds the stored value of every path it loads; it loads the names, birth date, username and both timestamps, and email and password exactly when they are selected; it is not new and nothing is modified |
| `UserDocuments.LoadedWellFormed` | express-typescript-starter/src/models/user/user.ts:44-90 | a document loaded from a valid record is well-formed |
| `UserDocuments.Validated` | express-typescript-starter/src/models/user/user.ts:48-89 | a document with no invalid path has no cast error, each held value passes its validators, and a new one holds every path but the two timestamps |
| `UserDocuments.PreSaveHook` | express-typescript-starter/src/models/user/user.model.ts:17-21 | when the password was modified it becomes the trimmed hash of the plain one; nothing else changes, and when it was not modified nothing changes at all |
| `UserDocuments.Stamp` | express-typescript-starter/src/models/user/user.ts:94 | the timestamps step keeps newness and every held path, and keeps well-formedness |
| `UserDocuments.StampSetsTimestamps` | express-typescript-starter/src/models/user/user.ts:94 | `createdAt` is kept when set and is `now` otherwise; a new document gets `updatedAt` equal to its `createdAt`; a stored one gets `updatedAt = now` when it has a modified path or lacks `createdAt`, and is left exactly as it was otherwise; no other path, value or mark changes, and cast errors stay |
| `UserDocuments.HookAndStampCommute` | express-typescript-starter/src/models/user/user.model.ts:17-21 | the password hook and the timestamps give the same document in either order |
| `UserDocuments.StampThenHook` | express-typescript-starter/src/models/user/user.ts:94 | with a modified password, the timestamps then the hook set the timestamps and the hashed password and nothing else |
| `UserDocuments.HookThenStamp` | express-typescript-starter/src/models/user/user.model.ts:17-21 | with a modified password, the hook then the timestamps give that same document |
| `UserDocuments.StampKeepsHeldValid` | express-typescript-starter/src/models/user/user.ts:94 | the timestamps step keeps every held path valid |
| `UserDocuments.SaveSpec` | express-typescript-starter/src/controllers/users/user.controller.ts:24 | validation errors fail the save naming exactly the invalid paths; a saved document is well formed, stored and unmodified; a saved new document holds every path and appends one record; a saved stored one keeps the size, and writes nothing when nothing is modified and it holds `createdAt` |
| `UserDocuments.Write` | express-typescript-starter/src/models/user/user.model.ts:17-21 | after validation, a save never fails with a validation error, and a saved one keeps the facts `SaveSpec` states |
| `UserDocuments.WriteNew` | express-typescript-starter/src/controllers/users/user.controller.ts:24 | a valid new document, stamped and hooked, holds every path and is inserted: one record appended, the others kept |
| `UserDocuments.WriteStored` | express-typescript-starter/src/controllers/users/user.controller.ts:82 | a stored document, stamped and hooked, keeps its username and is written over its record, keeping the size |
| `UserDocuments.Insert` | express-typescript-starter/src/models/user/user.ts:68-87 | an insert fails exactly when the written record shares a username or an email with a stored one, and then with a duplicate-key error; otherwise it appends one record and keeps the others |
| `UserDocuments.InsertAppends` | express-typescript-starter/src/controllers/users/user.controller.ts:24 | a successful insert appends the record written from the document |
| `UserDocuments.Update` | express-typescript-starter/src/controllers/users/user.controller.ts:82 | an unmodified document writes nothing; a modified one fails with "not found" exactly when no record has its username, with a duplicate-key error exactly when the written record clashes with another record, and otherwise keeps the size and leaves a well-formed saved document |
| `UserDocuments.DoneWellFormed` | express-typescript-starter/src/controllers/users/user.controller.ts:24 | a saved document holding a username stays well formed |
| `UserDocuments.SaveSpecWrite` | express-typescript-starter/src/models/user/user.model.ts:17-21 | a valid document is stamped and hooked, then inserted when new or written over its record when stored |
| `UserDocuments.WrittenValid` | express-typescript-starter/src/models/user/user.ts:44-90 | what a save writes is a valid record |
| `UserDocuments.AppendKeepsStoreValid` | express-typescript-starter/src/models/user/user.ts:68-87 | appending a valid record with no username or email clash keeps the collection valid |
| `UserDocuments.ReplaceKeepsStoreValid` | express-typescript-starter/src/models/user/user.ts:68-87 | replacing a record by a valid one that clashes with no other keeps the collection valid |
| `UserDocuments.SaveKeepsStoreValid` | express-typescript-starter/src/models/user/user.ts:44-90 | every successful save keeps the collection valid, with unique usernames and emails |
| `UserDocuments.InsertKeepsStoreValid` | express-typescript-starter/src/models/user/user.ts:68-87 | inserting a complete, valid new document keeps the collection valid |
| `UserDocuments.UpdateKeepsStoreValid` | express-typescript-starter/src/models/user/user.ts:68-87 | updating a stored document whose paths are valid keeps the collection valid |
| `UserDocuments.SaveNewStoresHash` | express-typescript-starter/src/models/user/user.model.ts:17-21 | a new user is stored with the trimmed hash of its password and with its names, birth date, email and username; its `createdAt` is the one it was given or else `now`, and its `updatedAt` equals its `createdAt` |
| `UserDocuments.WrittenNewDoc` | express-typescript-starter/src/models/user/user.ts:94 | the record written for a complete new document holds its paths, the hashed password, and the timestamps as the timestamps step sets them |
| `UserDocuments.SaveStoredKeepsPasswords` | express-typescript-starter/src/models/user/user.model.ts:18 | saving a stored document that did not load its password leaves every stored password unchanged |
| `UserDocuments.UpdateKeepsPasswordsOfPasswordless` | express-typescript-starter/src/models/user/user.model.ts:18 | an update of a document that holds no password keeps the size and every stored password |
| `UserDocuments.UpdateWritesRecord` | express-typescript-starter/src/controllers/users/user.controller.ts:82 | writing a stored document replaces the record with its username, keeping that username and taking the document's password and `updatedAt` |
| `UserDocuments.HookAndStampOnStored` | express-typescript-starter/src/models/user/user.model.ts:17-21 | on a stored document with a modified password, the hook and the timestamps keep the username and modifications and set `updatedAt = now` |
| `UserDocuments.SaveStoredHashesPassword` | express-typescript-starter/src/models/user/user.model.ts:17-21 | saving a stored document with a modified password stores the trimmed hash of the new password in that user's record |
| `UserDocuments.SaveStoredTouchesOnlyItsRecord` | express-typescript-starter/src/controllers/users/user.controller.ts:82 | saving a stored document changes no username and no record of another user |
| `UserDocuments.SaveNewRejectsTakenUsername` | express-typescript-starter/src/models/user/user.ts:87 | a new document whose username is already stored fails to save |
| `UserDocuments.SaveNewOutcome` | express-typescript-starter/src/models/user/user.ts:68-87 | a valid new document is saved exactly when no stored record has its username or its email, and otherwise fails with a duplicate-key error |
| `UserDocuments.UserDocument.FromBody` | express-typescript-starter/src/controllers/users/user.controller.ts:22 | `new User(body)` assigns the body's keys one by one, giving the state `NewDocState(body)` |
| `UserDocuments.UserDocument.Hydrate` | express-typescript-starter/src/controllers/users/user.controller.ts:34 | a document read from the collection has the state `LoadedState` |
| `UserDocuments.UserDocument.Set` | express-typescript-starter/src/controllers/users/user.controller.ts:80 | one path assignment updates the state as `AssignKey` says |
| `UserDocuments.UserDocument.SetEach` | express-typescript-starter/src/controllers/users/user.controller.ts:79-81 | the `forEach` over the body leaves the state `AssignAll(old state, body)` |
| `UserDocuments.UserDocument.RunPreSaveHook` | express-typescript-starter/src/models/user/user.model.ts:17-21 | the hook updates the state as `PreSaveHook` says |
| `UserDocuments.UserDocument.ApplyTimestamps` | express-typescript-starter/src/models/user/user.ts:94 | the timestamps update the state as `Stamp` says, which `StampSetsTimestamps` spells out |
| `UserDocuments.UserDocument.MarkSaved` | express-typescript-starter/src/controllers/users/user.controller.ts:24 | after a save the document is stored and has no modified path |
| `UserController.KeyNamesDistinct` | express-typescript-starter/src/models/user/user.ts:92-100 | the keys of the serialized document are distinct strings |
| `UserController.ToJson` | express-typescript-starter/src/models/user/user.ts:92-100 | `toJSON` with virtuals: exactly the held paths, the timestamps among them, with their values, then `age` and `fullName`, and no count |
| `UserController.ReadTransform` | express-typescript-starter/src/controllers/users/user.controller.ts:49-58 | the transform drops exactly `firstName` and `lastName`, keeps every other key unchanged, and adds the two counts |
| `UserController.ReadTransformKeeps` | express-typescript-starter/src/controllers/users/user.controller.ts:50-54 | each kept key carries its value through the transform |
| `UserController.LoadedPathJson` | express-typescript-starter/src/controllers/users/user.controller.ts:47 | a loaded path serializes as the stored value |
| `UserController.ReadHidesNames` | express-typescript-starter/src/controllers/users/user.controller.ts:51-52 | the read body has no `firstName` and no `lastName` |
| `UserController.ReadBodyPath` | express-typescript-starter/src/controllers/users/user.controller.ts:34-59 | every other path the read loads appears with its stored value |
| `UserController.ReadDisclosesSecrets` | express-typescript-starter/src/controllers/users/user.controller.ts:34-59 | the read body holds the stored email and the password hash |
| `UserController.ReadBodyDerived` | express-typescript-starter/src/controllers/users/user.controller.ts:46-59 | the read body holds the timestamps, `age`, `fullName` and the two counts |
| `UserController.ReadBodyCounts` | express-typescript-starter/src/controllers/users/user.controller.ts:53-57 | the read body carries the two counts it was given under `sameBirthDateCount` and `newMonthlyUsers` |
| `UserController.VirtualsDefined` | express-typescript-starter/src/models/user/user.ts:15-25 | a document holding the names and the birth date can compute its virtuals |
| `UserController.UpdateRecordsFound` | express-typescript-starter/src/controllers/users/user.controller.ts:79-86 | for a stored user the collection after the update is what the save wrote, or unchanged when it failed |
| `UserController.UserStore.constructor` | express-typescript-starter/src/models/user/user.model.ts:23 | an empty, valid collection |
| `UserController.UserStore.Save` | express-typescript-starter/src/models/user/user.model.ts:17-21 | `save()` validates, runs the hook, stamps, writes and marks the document saved, as `SaveSpec` says, or reports its error and leaves the collection as it was |
| `UserController.UserStore.CreateUser` | express-typescript-starter/src/controllers/users/user.controller.ts:21-29 | responds and changes the collection as `CreateOutcome` says, keeping it valid |
| `UserController.UserStore.ReadUser` | express-typescript-starter/src/controllers/users/user.controller.ts:31-65 | responds as `ReadResponse` says, looking the user up by the trimmed username, and changes nothing |
| `UserController.UserStore.UpdateUser` | express-typescript-starter/src/controllers/users/user.controller.ts:67-87 | responds as `UpdateResponse` says, looking the user up by the trimmed username, leaves the collection `UpdateRecords` gives, and keeps it valid |
| `UserController.UserStore.DeleteUser` | express-typescript-starter/src/controllers/users/user.controller.ts:89-97 | responds and changes the collection as `DeleteOutcome` says, looking the user up by the trimmed username, and keeps it valid |
| `UserController.RemoveKeepsStoreValid` | express-typescript-starter/src/controllers/users/user.controller.ts:92 | removing a record keeps the collection valid |
| `UserController.CreateResult` | express-typescript-starter/src/controllers/users/user.controller.ts:21-29 | the answer is 201 exactly when the save succeeds, which appends one record; otherwise 400 with the error, and nothing is stored |
| `UserController.CreateValidBody` | express-typescript-starter/src/controllers/users/user.controller.ts:21-29 | a body that passes validation is answered 201 exactly when no stored user has its username or email, and otherwise 400 with a duplicate-key error, storing nothing |
| `UserController.CreateStoresHash` | express-typescript-starter/src/controllers/users/user.controller.ts:22-25 | a created user is stored with the hash of the password it was given, with `createdAt` from the body or else `now`, and `updatedAt` equal to `createdAt` |
| `UserController.CreateRejectsTakenUsername` | express-typescript-starter/src/controllers/users/user.controller.ts:24-27 | a body with a username already stored is answered 400 and stores nothing |
| `UserController.ReadResult` | express-typescript-starter/src/controllers/users/user.controller.ts:34-38 | 404 with no body exactly when no user has the trimmed username, and 200 exactly when one does |
| `UserController.ReadReportsCounts` | express-typescript-starter/src/controllers/users/user.controller.ts:41-57 | a stored user's read reports how many other users share its birth date and how many were created this calendar month |
| `UserController.UpdateResult` | express-typescript-starter/src/controllers/users/user.controller.ts:67-87 | 404 "Object not found!" when no user has the trimmed username, which stores nothing; 400 "No updates sent!" for an empty body; otherwise 200 or 500; a 500 stores nothing |
| `UserController.UpdateEmptyBodyWritesNothing` | express-typescript-starter/src/controllers/users/user.controller.ts:76-82 | with an empty body the save that still runs writes nothing |
| `UserController.UpdateTouchesOnlyItsUser` | express-typescript-starter/src/controllers/users/user.controller.ts:67-87 | the update keeps the collection's size and every username, and changes no other user's record |
| `UserController.UpdatedDocHasNoPassword` | express-typescript-starter/src/controllers/users/user.controller.ts:70-81 | a document loaded for update holds no password unless the body sends one |
| `UserController.UpdateWithoutPasswordKeepsPasswords` | express-typescript-starter/src/controllers/users/user.controller.ts:67-87 | an update whose body has no "password" key leaves every stored password as it was |
| `UserController.DeleteResult` | express-typescript-starter/src/controllers/users/user.controller.ts:89-97 | always 200; `null` exactly when no user has the trimmed username, leaving the collection as it was; otherwise one record fewer; afterwards no user has that name |
| `UserController.DeleteTwice` | express-typescript-starter/src/controllers/users/user.controller.ts:92-93 | deleting the same username again answers 200 `null` and changes nothing |
| `UserController.LookupTrimsUsername` | express-typescript-starter/src/controllers/users/user.controller.ts:34-92 | the read, update and delete handlers answer and leave the collection alike for a username and its trimmed form, because the filter is cast through the `trim` setter |

## Left out

- **Time zones and daylight saving time.** Dates are local broken-down times read in one fixed zone, and a time value is the local milliseconds since 1970. Invalid dates (`NaN`) and the ±8.64e15 ms range limit of `Date` are not modelled.
- **Password hashing is a fixed function.** bcrypt's random salt, and `AuthService.decryptAndCompare`, are not modelled. `encryptPassword` is a fixed function value, so two hashes of one password are equal in the model.
- `Text.Lower`: maps only ASCII `A`-`Z`. JavaScript's `toLowerCase` uses full Unicode case mapping. Characters are code points, so string lengths (the password's 8 to 20 bound) are counted in code points rather than in UTF-16 code units.
- **Request bodies are pre-shaped.** A body is a sequence of key and value pairs, each value a string, a date or something the caster rejects. JSON `null`, numbers cast to strings, strings cast to dates, and nested objects are not modelled.
- **Identity and metadata fields.** `_id` and the `ObjectId` are not modelled, and neither is the insertion order of stored documents beyond "appended at the end". `minimize`, `versionKey` and `id` are options that change nothing the model observes.
- `UserController.UserStore.ReadUser`: the 500 response is not modelled. That is the catch of user.controller.ts:61-64, reached only when the database fails.
- `UserController.UserStore.DeleteUser`: the 500 response is not modelled. That is the catch of user.controller.ts:94-96, reached only when the database fails.
- `UserDocuments.AssignKey`: a key naming a member of the document itself (`save`, `isNew`, `__proto__`, …) replaces that member, which in the source breaks the save and gives a 500. The model treats such a key like any other key that is no schema path. A non-path key's own property is not modelled either, since neither the save nor `toJSON` reads it.
- `UserController.UpdateResponse`: after the 400 for an empty body, the code sends again, which Express rejects. Only the first response is modelled.
- **Error bodies.** The Mongoose error object sent with 400 and 500 responses is modelled by its kind only: the invalid paths, or a duplicate key.
- **Out of scope:** the database connection, logging (`loggerFactory`, `resSerializer`, the logging middleware), the environment configuration files, the health-check controller, routing and server bootstrap. None of these is part of this model.
- **Uninterpreted helpers.** `capitalizeFirstCharacter` and `isEmail` are function values with no stated properties, since their code is not part of this model.
- **Exception subclasses are never thrown.** `WrongUpdatesException` and the other `HttpException` subclasses are built and passed through the error middleware in the model, but no handler throws them. The handlers answer directly.
- **No concurrency.** The handlers run one at a time. The read and its two counts are one consistent snapshot, whereas the source issues three separate queries.

## Findings

| source | as written | input that shows it | evidently intended | confidence | as-written member | corrected member |
|---|---|---|---|---|---|---|
| express-typescript-starter/src/utils/dateUtils.ts:45-47 (used by 23-25) | `isLeapYear` is `year % 400 === 0 \|\| year % 4 === 0`, which treats every year divisible by 4 as leap, including 1900 and 2100 | `new ModDate(new Date(1900, 1, 10)).getLastDateOfTheMonth()`: `getDaysInThisMonth()` is 29, and `new Date(1900, 1, 29)` rolls over to 1 March 1900, the same date `getFirstDateOfNextMonth()` gives | 28 days in February 1900, and a last date of 28 February 1900 | not executed | `ModDates.LastDateOfFebruary1900` | `ModDates.ModDate.CorrectedLastDateOfTheMonth` |

`getDaysInThisMonth` and `isLeapYear` are kept as the code writes them. The corrected member takes the month's length from the Gregorian calendar, and is proved to be a date in the month whose next day starts the next month. `ModDates.LastDateIsLastDay` states exactly which months the written code gets wrong.
