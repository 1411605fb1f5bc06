# mycv authentication core, in Dafny

This project models the authentication and authorisation slice of the `mycv`
NestJS application. Two smaller pieces come with it: the JSON-file message
table of the `messages` application, and the two report DTO validators.

- **Credentials** (`AuthService`). Signup refuses an email that is already
  in use. Otherwise it stores `hex(salt) + "." + hex(scrypt(password, hex(salt), 32))`.
  Signin takes the first user listed for the email, splits the stored value
  on `.`, derives the key again from the offered password and the stored
  salt, and compares. `scrypt` is an arbitrary deterministic function. The
  8 random salt bytes are an input. Hex encoding, `String.prototype.split`
  and the comparison are modelled exactly.
- **User store** (`Users.UserStore`). The table is a class whose rows live
  in a `seq`. Ids start at 1, increase, and are never reused. `find`,
  `findOne`, `create`, `update` and `remove` act on it as the controller and
  the services use them.
- **Session state** (`Http`, `UsersController`). Signup and signin write
  `session.userId`, and signout sets it to `null`. `userId` is modelled as
  `undefined`, `null` or a number, with JavaScript truthiness, so `0` counts
  as absent.
- **Current user and guards** (`CurrentUserInterceptor`, `Guards`). The
  interceptor resolves a truthy `userId` with `findOne`, then runs the rest
  of the chain once. `AuthGuard` passes on a truthy `userId`. `AdminGuard`
  passes on a current user whose `admin` flag is set. An end-to-end method
  runs signup, then resolves the current user, then runs both guards on a
  fresh store (see "Left out" for how this order differs from Nest's).
- **`parseInt`** (`EcmaParseInt`). This is the ECMAScript global function
  (section 19.2.5 of ECMA-262) called without a radix. The controller
  applies it to `:id` path parameters, and the estimate DTO applies it to
  `year` and `mileage`.
- **Messages** (`Messages`). The parsed `messages.json` is a class holding
  a `map` from property names to records. `create` picks an id in 0..998
  and writes `{ id, content }` under the id's decimal key.
- **Report validators** (`ReportDtos`). Each decorator is a
  (property, constraint) rule, and the validation pipe accepts an object
  when no rule is violated. The estimate query is transformed first:
  `parseInt` for `year` and `mileage`, and `parseFloat` for `lng` and `lat`.
  `parseFloat` is an input function here.

One consequence the model makes explicit: `PATCH /auth/:id` stores a new
`password` as sent, without hashing. Unless that text contains `.`,
signin then rejects every password for the account
(`UsersController.PatchedPlainPasswordLocksOut`).

Files: `outcomes.dfy` (Option, HTTP errors, Result), `hex.dfy`,
`js_strings.dfy`, `ecma_parse_int.dfy`, `users.dfy`, `auth_service.dfy`,
`http.dfy`, `guards.dfy`, `current_user_interceptor.dfy`,
`users_controller.dfy`, `messages.dfy`, `report_dtos.dfy`.

## Model

| member | source | states |
|---|---|---|
| Hex.ToHex | mycv/src/users/auth.service.ts:35 | `toString('hex')` doubles the length, emits only lowercase hex digits and never emits `.` |
| Hex.FromHexToHex | mycv/src/users/auth.service.ts:29 | hex encoding loses nothing: decoding `hex(bs)` gives `bs` back |
| Hex.ToHexInjective | mycv/src/users/auth.service.ts:61 | two byte strings have equal hex exactly when they are equal, so comparing digests in hex compares the keys |
| JsStrings.Split | mycv/src/users/auth.service.ts:53 | `split('.')` yields at least one piece, no piece contains `.`, and exactly one piece when `.` is absent |
| JsStrings.JoinSplit | mycv/src/users/auth.service.ts:53 | joining the pieces with the separator restores the string |
| JsStrings.SplitAfterPiece | mycv/src/users/auth.service.ts:53 | a separator-free prefix followed by the separator becomes the first piece |
| JsStrings.SplitWithoutSeparator | mycv/src/users/auth.service.ts:53 | a string without the separator splits into itself alone |
| JsStrings.SplitPair | mycv/src/users/auth.service.ts:53 | `a + "." + b`, with no `.` in either, splits into exactly `[a, b]` |
| EcmaParseInt.TrimStart | mycv/src/users/users.controller.ts:74 | the trimmed string is a suffix, starts with non-white space, and everything skipped is white space or a line terminator |
| EcmaParseInt.ParseInt | mycv/src/reports/dtos/get-estimate.dto.ts:19 | the result is a number exactly when, after the white space and one sign, a decimal digit follows (and, after a `0x` prefix, a hexadecimal digit); a negative result needs a leading `-` |
| EcmaParseInt.LeadingDigits | mycv/src/reports/dtos/get-estimate.dto.ts:19 | the digits read are the longest prefix made of digits of the radix |
| EcmaParseInt.NatToDecimal | messages/src/messages/messages.repository.ts:28 | `String(n)` for a natural number is a non-empty digit string with no leading zero |
| EcmaParseInt.DecimalValue | messages/src/messages/messages.repository.ts:28 | the digit value of `String(n)` is `n` |
| EcmaParseInt.ParseIntIgnoresLeadingWhiteSpace | mycv/src/reports/dtos/get-estimate.dto.ts:19 | leading white space does not change the result of `parseInt` |
| EcmaParseInt.ParseIntReadsDigitPrefix | mycv/src/reports/dtos/get-estimate.dto.ts:19 | a run of decimal digits followed by a non-digit is read as that run's value; a lone `0` before `x` is the exception |
| EcmaParseInt.ParseIntNegative | mycv/src/reports/dtos/get-estimate.dto.ts:25 | a leading `-` negates the value and keeps NaN as NaN |
| EcmaParseInt.ParseIntDecimal | mycv/src/users/users.controller.ts:74 | `parseInt(String(n)) == n` for every integer, negative ones included |
| EcmaParseInt.IntToDecimalInjective | messages/src/messages/messages.repository.ts:28 | distinct integers have distinct decimal keys |
| EcmaParseInt.ParseIntWithoutLeadingDigit | mycv/src/reports/dtos/get-estimate.dto.ts:19-20 | when no decimal digit follows the white space and the sign, the result is NaN, whatever comes later |
| EcmaParseInt.ParseIntLetterFirst | mycv/src/reports/dtos/get-estimate.dto.ts:19 | `parseInt("abc2000")` is NaN: digits after a letter are never reached |
| EcmaParseInt.ParseIntEmptyHexPrefix | mycv/src/reports/dtos/get-estimate.dto.ts:19 | `parseInt("0xg")` is NaN although it starts with the digit `0` |
| EcmaParseInt.ParseIntTrailingGarbage | mycv/src/reports/dtos/get-estimate.dto.ts:19 | `parseInt("2000abc")` is 2000 |
| EcmaParseInt.ParseIntSignedDigits | mycv/src/reports/dtos/get-estimate.dto.ts:25 | white space, then `-`, then digits of value `v` parse to `-v` |
| EcmaParseInt.ParseIntSpacedNegative | mycv/src/reports/dtos/get-estimate.dto.ts:25 | `parseInt("  -12")` is -12 |
| EcmaParseInt.ParseIntHexPrefixed | mycv/src/reports/dtos/get-estimate.dto.ts:19 | a string starting with `0x` or `0X` is read in radix 16 from its third character |
| EcmaParseInt.ParseIntHexDigits | mycv/src/reports/dtos/get-estimate.dto.ts:19 | `0x` followed by hexadecimal digits is read as their radix-16 value |
| EcmaParseInt.ParseIntHexPrefix | mycv/src/reports/dtos/get-estimate.dto.ts:19 | a `0x` prefix switches to radix 16: `parseInt("0x7DA")` is 2010 |
| Users.FindByEmail | mycv/src/users/auth.service.ts:17 | `find(email)` lists exactly the users with that email, is empty exactly when none has it, and is no longer than the table |
| Users.FindByEmailAppend | mycv/src/users/auth.service.ts:38 | a new row joins the end of its email's list and leaves other emails' lists alone |
| Users.FindByEmailFirst | mycv/src/users/auth.service.ts:46 | the first user `find` lists is the earliest row with the email |
| Users.IndexOfId | mycv/src/users/interceptors/current-user.intercetor.ts:23 | the position of the first row with the id, or none exactly when no row has it; NaN matches no row |
| Users.FindById | mycv/src/users/interceptors/current-user.intercetor.ts:23 | `findOne(id)` returns a row with that id, or nothing exactly when no row has it |
| Users.ApplyPatch | mycv/src/users/users.controller.ts:115 | each property present in the body replaces the stored one verbatim; the id and the admin flag are kept |
| Users.UserStore.constructor | mycv/src/users/user.entity.ts:14-15 | an empty table whose first generated id is 1 |
| Users.UserStore.Create | mycv/src/users/users.service.ts:29-43 | appends a row with a fresh id, the given email and password and `admin = true`, returns it, and keeps ids increasing |
| Users.UserStore.Update | mycv/src/users/users.controller.ts:115 | NotFound "user not found" with nothing changed when no row has the id; otherwise patches exactly that row and returns it |
| Users.UserStore.Remove | mycv/src/users/users.controller.ts:103 | NotFound "user not found" with nothing changed when no row has the id; otherwise deletes exactly that row and returns it |
| AuthService.HashPassword | mycv/src/users/auth.service.ts:29-35 | the credential's part before the first `.` is the hex salt, and the credential accepts the password it was made from |
| AuthService.PasswordMatches | mycv/src/users/auth.service.ts:53-61 | a stored value matches a password only if it contains `.` |
| AuthService.SplitCredential | mycv/src/users/auth.service.ts:53 | the digest part is absent exactly when the stored value has no `.`, and the salt part never contains `.` |
| AuthService.CredentialFormat | mycv/src/users/auth.service.ts:29-35 | the stored credential is 16 hex digits, a `.` at index 16, then 64 hex digits, 81 characters in all |
| AuthService.SplitHashPassword | mycv/src/users/auth.service.ts:53 | splitting a stored credential recovers exactly the salt and the digest signup joined |
| AuthService.HashPasswordVerifies | mycv/src/users/auth.service.ts:57-63 | a credential accepts its own password, and accepts another exactly when that derives the same key |
| AuthService.NoSeparatorNeverMatches | mycv/src/users/auth.service.ts:61 | a stored value without `.` leaves `storedHash` undefined and matches no password |
| AuthService.Signup | mycv/src/users/auth.service.ts:14-42 | BadRequest "email in use" with the store untouched when the email is taken; otherwise the store gains exactly the returned user, whose password is the salted credential |
| AuthService.Signin | mycv/src/users/auth.service.ts:44-67 | NotFound "user not found" exactly when no user has the email; the only other error is BadRequest "bad password"; success returns a stored user with that email and a `.` in its credential |
| AuthService.SigninIgnoresLaterRows | mycv/src/users/auth.service.ts:46 | rows added after the first match, duplicates included, do not change the signin outcome |
| AuthService.SigninDecidedByFirstMatch | mycv/src/users/auth.service.ts:46-66 | signin returns the earliest user with the email exactly when its credential accepts the password, and otherwise fails with "bad password" |
| AuthService.SignupThenSignin | mycv/src/users/auth.service.ts:32-61 | after signup for a new email, signin with the same password returns the new user, and with another password succeeds only if that derives the same key |
| AuthService.SecondSignupSeesFirst | mycv/src/users/auth.service.ts:17-25 | after one signup, a second signup with the same email sees it and is refused |
| Http.Session.constructor | mycv/src/users/interceptors/current-user.intercetor.ts:19 | a new session bag has `userId` undefined |
| Http.Request.constructor | mycv/src/users/interceptors/current-user.intercetor.ts:16 | a new request has no current user |
| Http.SessionUserId | mycv/src/users/interceptors/current-user.intercetor.ts:19 | a missing session reads as an empty bag, so its `userId` is undefined |
| Http.Truthy | mycv/src/guards/auth.guard.ts:16 | `userId` is truthy exactly when it is neither undefined, nor null, nor 0 |
| Http.CallHandler.constructor | mycv/src/users/interceptors/current-user.intercetor.ts:31 | the handler has not run yet |
| Http.CallHandler.Handle | mycv/src/users/interceptors/current-user.intercetor.ts:31 | one more run of the handler, which sees the request's current user |
| Guards.AuthGuardCanActivate | mycv/src/guards/auth.guard.ts:16 | TypeError without a session; otherwise it passes exactly when `userId` is truthy, so undefined, null and 0 deny |
| Guards.AdminGuardCanActivate | mycv/src/guards/admin.guard.ts:8-13 | false without a current user, otherwise the user's `admin` flag |
| Guards.AdminGuardIgnoresSession | mycv/src/guards/admin.guard.ts:5-13 | two requests with the same current user get the same decision, whatever their sessions hold |
| Guards.NewUserPassesAdminGuard | mycv/src/users/user.entity.ts:24-25 | resolving the id of a user the store has just created finds exactly that user, whose default `admin = true` passes the admin guard |
| CurrentUserInterceptor.Intercept | mycv/src/users/interceptors/current-user.intercetor.ts:14-32 | a truthy `userId` sets `currentUser` to the `findOne` result, found or not; a falsy one leaves it alone; the handler then runs exactly once and sees the new value; only `currentUser` and the handler change |
| UsersController.CreateUser | mycv/src/users/users.controller.ts:45-55 | on signup failure the error, with the store (rows and id counter) and the session unchanged, so nothing is created; on success the store gains exactly the returned user, the id counter advances by one, and `session.userId` becomes the user's id, which is truthy |
| UsersController.SignIn | mycv/src/users/users.controller.ts:58-68 | returns the signin outcome; on success `session.userId` is the user's id, on failure the session is unchanged |
| UsersController.SignOut | mycv/src/users/users.controller.ts:38-42 | `session.userId` becomes null, which is falsy |
| UsersController.FindUser | mycv/src/users/users.controller.ts:71-83 | NotFound "user not found" exactly when no row has id `parseInt(id)`; otherwise a stored user with that id |
| UsersController.FindAllUsers | mycv/src/users/users.controller.ts:87-92 | exactly the users with the queried email |
| UsersController.UpdateUser | mycv/src/users/users.controller.ts:111-116 | NotFound with the store unchanged exactly when no row has id `parseInt(id)`; otherwise only the first row with that id changes, it takes the body's email and password verbatim, and it is returned; the id counter never changes |
| UsersController.RemoveUser | mycv/src/users/users.controller.ts:99-104 | NotFound with the store unchanged exactly when no row has id `parseInt(id)`; otherwise exactly that row is deleted and returned, the others keep their order, and no row has that id any more; the id counter never changes |
| UsersController.RemovedIdIsGone | mycv/src/users/users.controller.ts:103 | with unique ids, deleting a row leaves no other row with its id |
| UsersController.PatchedPlainPasswordLocksOut | mycv/src/users/users.controller.ts:115 | after a PATCH stores a password without `.`, signin for that email fails with "bad password" for every attempt |
| UsersController.SignupThenAuthenticated | mycv/test/auth.e2e-spec.ts:28-44 | on a fresh application, signup returns user 1 with the email; the same session then passes the auth guard, resolves that user, and passes the admin guard |
| UsersController.SignOutThenRefused | mycv/src/users/users.controller.ts:41 | after signout the session is refused by the auth guard and no current user is attached |
| Messages.Key | messages/src/messages/messages.repository.ts:28 | the property name of a numeric id parses back to that id |
| Messages.KeyInjective | messages/src/messages/messages.repository.ts:28 | distinct ids land on distinct keys |
| Messages.MessagesRepository.constructor | messages/src/messages/messages.repository.ts:13-14 | the table holds what the file parsed to |
| Messages.MessagesRepository.FindOne | messages/src/messages/messages.repository.ts:12-16 | the record stored under the key `id`, or nothing exactly when the key is absent |
| Messages.MessagesRepository.FindAll | messages/src/messages/messages.repository.ts:18-22 | the table unchanged: its keys are exactly those `findOne` finds, with the same records |
| Messages.MessagesRepository.Create | messages/src/messages/messages.repository.ts:24-31 | an id in 0..998; `{ id, content }` stored under its key, replacing any record there; every other key untouched; the stored record returned and found again by `findOne` |
| Messages.CreateKeepsOtherIds | messages/src/messages/messages.repository.ts:28 | any other id finds after create what it found before |
| Messages.CreateOverwrites | messages/src/messages/messages.repository.ts:28 | creating on an occupied id replaces that record and the table does not grow |
| Messages.LeadingZeroIsAnotherKey | messages/src/messages/messages.repository.ts:15 | `"07"` parses to 7 but is not the key of message 7 |
| Messages.GetMessage | messages/src/messages/messages.controller.ts:42-50 | NotFound "Message not found" exactly when nothing is stored under `id` |
| ReportDtos.Holds | mycv/src/reports/dtos/create-report.dto.ts:12-40 | only a string satisfies `@IsString`, and only a finite number satisfies the numeric decorators, so undefined and NaN fail all of them |
| ReportDtos.CreateReportRules | mycv/src/reports/dtos/create-report.dto.ts:12-41 | the decorators of `CreateReportDto` as (property, constraint) rules: `@IsString` on make and model, `@IsNumber @Min @Max` on year (1930..2050), mileage and price (0..1000000), `@IsLongitude` on lng and `@IsLatitude` on lat |
| ReportDtos.GetEstimateRules | mycv/src/reports/dtos/get-estimate.dto.ts:12-38 | the decorators of `GetEstimateDto`: the same rules as the report body without those on price |
| ReportDtos.Accepted | mycv/src/app.module.ts:44-47 | the global `ValidationPipe` lets an object through when validation reports no error; an accepted object satisfies every rule |
| ReportDtos.Violations | mycv/src/reports/dtos/create-report.dto.ts:10-42 | the errors are exactly the rules the object breaks |
| ReportDtos.AcceptedIffAllHold | mycv/src/reports/dtos/create-report.dto.ts:10-42 | no validation error exactly when every rule holds |
| ReportDtos.AcceptedAppend | mycv/src/reports/dtos/create-report.dto.ts:10-42 | validating two rule groups together passes exactly when both pass |
| ReportDtos.RangeRulesAccepted | mycv/src/reports/dtos/create-report.dto.ts:19-22 | `@IsNumber @Min(lo) @Max(hi)` hold exactly when the property is a number in `[lo, hi]` |
| ReportDtos.EstimateRulesAccepted | mycv/src/reports/dtos/get-estimate.dto.ts:11-39 | an estimate object passes exactly when make and model are strings, year is in 1930..2050, mileage in 0..1000000, lng in -180..180 and lat in -90..90 |
| ReportDtos.CreateReportAccepted | mycv/src/reports/dtos/create-report.dto.ts:10-42 | a report passes exactly when the estimate fields are valid and price is in 0..1000000 |
| ReportDtos.ReportRulesAreEstimateRulesAndPrice | mycv/src/reports/dtos/create-report.dto.ts:38-41 | the report's rules are the estimate's rules followed by the price rules |
| ReportDtos.ReportAcceptedIsEstimateAccepted | mycv/src/reports/dtos/get-estimate.dto.ts:11-39 | a body that passes the report rules also passes the estimate rules |
| ReportDtos.EstimateIgnoresPrice | mycv/src/reports/dtos/get-estimate.dto.ts:11-39 | the value sent as `price` never changes the estimate decision |
| ReportDtos.TransformValue | mycv/src/reports/dtos/get-estimate.dto.ts:12-38 | year and mileage become a number exactly when `parseInt` finds one and NaN otherwise; make and model stay the raw string |
| ReportDtos.TransformEstimate | mycv/src/reports/dtos/get-estimate.dto.ts:11-39 | exactly the six properties `GetEstimateDto` declares that the query carries are kept, each passed through its transform; `price` is dropped |
| ReportDtos.EstimateDropsPrice | mycv/src/reports/dtos/get-estimate.dto.ts:11-39 | adding or changing `price` in the query does not change the transformed object |
| ReportDtos.TransformedProperty | mycv/src/reports/dtos/get-estimate.dto.ts:18-38 | a transformed property is the transform of the raw value, or undefined when the query lacks it or it is `price` |
| ReportDtos.ParsedInRange | mycv/src/reports/dtos/get-estimate.dto.ts:19-23 | the range check on transformed year or mileage is the range check on the `parseInt` result |
| ReportDtos.TransformedString | mycv/src/reports/dtos/get-estimate.dto.ts:12-16 | make and model are strings exactly when present in the query |
| ReportDtos.TransformedCoordinate | mycv/src/reports/dtos/get-estimate.dto.ts:31-38 | lng and lat are in range exactly when present and `parseFloat` puts them in range |
| ReportDtos.TransformedFieldsValid | mycv/src/reports/dtos/get-estimate.dto.ts:11-39 | the six field checks on the transformed query, restated on the raw query |
| ReportDtos.GetEstimateAccepted | mycv/src/reports/dtos/get-estimate.dto.ts:11-39 | a query passes exactly when make and model are present, `parseInt` puts year in 1930..2050 and mileage in 0..1000000, and `parseFloat` puts lng and lat in range |
| ReportDtos.EstimateYearWithTrailingText | mycv/src/reports/dtos/get-estimate.dto.ts:19-23 | `year=2000abc` passes the year checks |
| ReportDtos.EstimateYearWithoutDigits | mycv/src/reports/dtos/get-estimate.dto.ts:19-20 | a year with no digit right after the white space and sign, such as `abc2000`, parses to NaN, fails `@IsNumber`, and the query is refused |
| ReportDtos.EstimateMileageWithoutDigits | mycv/src/reports/dtos/get-estimate.dto.ts:25-26 | the same for mileage |

## Left out

- `scrypt` and `randomBytes` (mycv/src/users/auth.service.ts:4, 29, 32) are not computed. Key derivation is an arbitrary deterministic function parameter, and the salt is an arbitrary 8-byte input. Promise/`await` plumbing is sequential here.
- The stored-credential comparison is modelled as string equality. Timing behaviour is not modelled.
- `cookie-session` (mycv/src/app.module.ts:55-64) is not modelled. Its signing, encoding and expiry belong to the library, and the session is a plain object holding `userId`.
- TypeORM and sqlite are replaced by an in-memory table. Only `create` appears in mycv/src/users/users.service.ts. So `find`, `findOne`, `update` and `remove` are modelled by what the controller and services rely on:
  - `find` lists matches in insertion order;
  - `findOne` returns the row with the id or nothing;
  - `update` and `remove` fail with NotFound "user not found" on a missing id.
- Ids are positive and increasing, as sqlite autoincrement gives them. Entity lifecycle hooks only log and are left out.
- Users.UserStore.Create: the row takes the column default `admin = true` (mycv/src/users/user.entity.ts:24-25). Other column defaults and the `reports` relation are not modelled.
- EcmaParseInt.ParseInt: numbers are unbounded integers. Rounding of very long digit strings to a double is not represented. `-0` is not distinguished from `0`.
- `parseFloat` for `lng`/`lat` (mycv/src/reports/dtos/get-estimate.dto.ts:31-38) is a function parameter and is not computed. Its results are only range-checked.
- ReportDtos.Holds: `@IsLongitude`/`@IsLatitude` are checked as numeric ranges only. Two things are not modelled:
  - class-validator also accepts strings matching its coordinate pattern;
  - it formats numbers as strings before matching, so exponent notation such as `1e-7` is refused there.
- ReportDtos.Holds: `Infinity` is not a value of the model, so `@IsNumber`'s refusal of it is not represented. Query values are single strings; repeated or nested query parameters are not modelled.
- File I/O and JSON in messages/src/messages/messages.repository.ts are left out. The file is the `messages` map. Property names inherited from `Object.prototype` (such as `constructor`) are not modelled. The `Math.random` choice is any id in 0..998.
- `messages.service.ts` and `messages.module.ts` only delegate or wire dependencies. The controller's NotFound mapping is `Messages.GetMessage`.
- The current-user decorator returns the constant `'hi there'` (mycv/src/users/decorators/current-user.decorator.ts:11). So `whoAmI` (mycv/src/users/users.controller.ts:32-36) is not modelled beyond its auth guard.
- `serialize.interceptor.ts` is not modelled: response serialisation uses `plainToClass` with a `UserDto` that is not part of this model.
- UsersController.SignupThenAuthenticated: the method resolves the current user before it runs the guards. Nest runs guards before interceptors, and users.module.ts, which would register `CurrentUserInterceptor`, is not part of this model. So in the program as written, `AdminGuard` can read a `currentUser` that nothing has set yet; that run order is not modelled.
- UsersController.FindAllUsers: the contract states which users are listed, not their order. The order is that of the store's `find`, stated by Users.FindByEmailAppend and Users.FindByEmailFirst.
- `update-user.dto.ts`: `@IsEmail` is a library rule and is not modelled. The PATCH body is taken as already validated.
- `reports.controller.ts` and `reports.service.ts` are routing and ORM calls. `di/*`, `app.module.ts`, `main.ts` and `src/app.controller.ts` are configuration or constant responses.
- The check-then-act race between concurrent signups for one email (mycv/src/users/auth.service.ts:17-38) is not modelled. The model is sequential.
