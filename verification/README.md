# Spring REST backend: password policy and controller decisions in Dafny

This project models the sequential logic of a Spring REST backend for a phone
shop (users, phones, orders, JWT login) and proves properties of it. The
model covers five pieces:

- **Password policy** (`PasswordValidator.isValidPassword`). The Java regular
  expression `^(?=.*[a-z])(?=.*[A-Z])(?=.*\d)(?=.*[@#$%^&+=!])(?=\S+$).{8,}$`
  is written out group by group as `RegexMatches`. It uses Java's default
  meaning of `.`, `\s`, `\d` and of `$` before a final line terminator, and
  `matches()` must consume the whole input. It is proved equivalent to the
  flat policy `MeetsPolicy`: at least 8 code points; an ASCII lower-case
  letter, an ASCII upper-case letter, an ASCII digit and one of `@#$%^&+=!`;
  no Java whitespace and no line terminator. `IsValidPassword` decides the
  policy in one scan.
- **User endpoints** (`UserController`). Each endpoint is a pure function.
  Its inputs are the current principal, the user store, the validator's
  error list and the repository failures (`Faults`). It returns a `Step`:
  the reply, the store afterwards, and the writes handed to the repository.
  The store is a map from id to user, with unique username and email
  indexes (`UserStore`). The owner-or-admin rule is `Authorization.Check`.
- **Email login** (`AuthController.tokenEmail`). The username field is looked
  up as an email and, on a hit, replaced by that user's username.
  `authenticate` is an opaque function parameter.
- **Orders**: a fixed user and an append-only list of phones.
- **Phone endpoints** (`PhoneController`): delete, update by affected-row
  count, and the image-upload guard.

The inputs with no code behind them are parameters:
- the principal, which comes from the JWT;
- BCrypt encoding (`Hasher`);
- the `updateUserInfo` and `updatePhoneInfo` queries, which report an
  affected-row count and the table afterwards;
- whether file I/O fails;
- whether a repository call raises.

Notes on the code:
- The owner-or-admin rule guards only delete-by-username, the user update
  and the user image upload. `DELETE /deleteUser/{id}` and all phone
  endpoints have no such check.
- A refused operation answers 401 with a message.
- Roles are compared as strings against `"ROLE_admin"`. A missing role makes
  `userRole.equals` throw. In delete-by-username that exception is caught
  (500). In `handleUserUpdate` the check is outside the `try`, so it escapes
  (`Uncaught`).
- Deleting a user by an unknown id answers 500, not 404, because
  `UserService.getUser` raises on a missing id. `PhoneController.deletePhone`
  behaves the same way, with an uncaught exception.

## Model

| member | source | states |
|---|---|---|
| PasswordPolicy.RegexMatchesIffPolicy | src/main/java/at/technikum/springrestbackend/util/PasswordValidator.java:9-14 | the regex matches the whole password iff it has at least 8 characters, one of each required class, and no whitespace or line terminator; no upper length bound |
| PasswordPolicy.IsValidPassword | src/main/java/at/technikum/springrestbackend/util/PasswordValidator.java:7-15 | accepts iff the regex matches; rejects every password that is too short, lacks any one class, or contains a blank anywhere |
| PasswordPolicy.DollarOnlyAtEnd | src/main/java/at/technikum/springrestbackend/util/PasswordValidator.java:9 | once `.` has consumed every character, `$` can hold only at the end, so a final line terminator is never skipped |
| PasswordPolicy.SamplePasswordAccepted | src/main/java/at/technikum/springrestbackend/util/PasswordValidator.java:18-20 | the sample password "StrongP@ss1" is accepted |
| PasswordPolicy.NonAsciiLowerDoesNotCount | src/main/java/at/technikum/springrestbackend/util/PasswordValidator.java:9 | non-ASCII lower-case letters such as `ä` do not satisfy `[a-z]` |
| PasswordPolicy.TrailingLineTerminatorRejected | src/main/java/at/technikum/springrestbackend/util/PasswordValidator.java:9-14 | a trailing U+2028 or `\n` is rejected, although `$` may match before a final terminator |
| UserStore.FindById | src/main/java/at/technikum/springrestbackend/service/UserService.java:25-27 | a record is found iff its id is in the table; looking its username or its email up in the indexes leads back to the same record |
| UserStore.FindByUsername | src/main/java/at/technikum/springrestbackend/service/UserService.java:29-31 | zero or one record: found iff some row has that username, and the found row has it |
| UserStore.FindByEmail | src/main/java/at/technikum/springrestbackend/service/UserService.java:45-47 | zero or one record: found iff some row has that email, and the found row has it |
| UserStore.UsernameIsUnique | src/main/java/at/technikum/springrestbackend/service/UserService.java:29-31 | two rows with the same username are the same row |
| UserStore.DeleteById | src/main/java/at/technikum/springrestbackend/service/UserService.java:69-72 | removes exactly that id from the table and keeps the indexes consistent |
| UserStore.Insert | src/main/java/at/technikum/springrestbackend/service/UserService.java:57-59 | fails iff the id, username or email is taken (the id case is a modelling choice, never reached from registration); otherwise adds exactly that row and keeps the indexes consistent |
| Http.CatchFailure | src/main/java/at/technikum/springrestbackend/controller/UserController.java:101-106 | a token-expired failure answers 401 with the expiry message; every other failure answers 500 with the generic message |
| Authorization.Check | src/main/java/at/technikum/springrestbackend/controller/UserController.java:116-118 | access is granted iff the username equals the target or the role is exactly "ROLE_admin"; a missing role on a non-owner is a null dereference |
| UserController.GetUserRole | src/main/java/at/technikum/springrestbackend/controller/UserController.java:46-57 | the stored role of the user with that name, or "No user with this name found" when there is none |
| UserController.GetUser | src/main/java/at/technikum/springrestbackend/service/UserService.java:25-27 | a missing id raises instead of returning null |
| UserController.HandleUserDeletion | src/main/java/at/technikum/springrestbackend/controller/UserController.java:154-161 | a null user answers 404 "User not found" and writes nothing; a present user is deleted by its id, exactly that id leaves the table, 200 "User deleted successfully" |
| UserController.DeleteUserById | src/main/java/at/technikum/springrestbackend/controller/UserController.java:96-108 | never answers 404; an unknown id answers 500 and changes nothing; a known id is removed with 200; a failed lookup answers its mapped failure; a delete that raises answers its mapped failure, issues that one delete and leaves the store as it was |
| UserController.DeleteUserByIdIntended | src/test/java/at/technikum/springrestbackend/Controller/UserControllerTest.java:152-177 | the behaviour UserControllerTest.java:152-177 expects: an unknown id answers 404 "User not found", a known id is removed with 200 |
| UserController.UnknownIdDeletion | src/main/java/at/technikum/springrestbackend/service/UserService.java:25-27 | for the same unknown id the code answers 500 where the intended handler answers 404 |
| UserController.DeleteUserByName | src/main/java/at/technikum/springrestbackend/controller/UserController.java:110-127 | the store changes only for an owner or admin, and then only by removing the named user, with 200; a refusal answers 401 with a fixed message and issues no write; a missing role answers 500; an absent user answers 404; for an owner or admin, a delete that raises answers its mapped failure, issues the delete of the found user's id and leaves the store as it was |
| UserController.ApplyUserUpdate | src/main/java/at/technikum/springrestbackend/controller/UserController.java:163-209 | a refusal issues no update and leaves the store unchanged; a granted request issues exactly one update; 200 iff the affected-row count is positive, else 404 "User not found"; a raised failure is mapped |
| UserController.HandleUserUpdate | src/main/java/at/technikum/springrestbackend/controller/UserController.java:175-176 | the update handed to the repository carries the encoded password; success implies owner or admin |
| UserController.RefusedUpdateIgnoresQuery | src/main/java/at/technikum/springrestbackend/controller/UserController.java:168-170 | a refused update gives the same step whatever the update query would do |
| UserController.HandleUserCreation | src/main/java/at/technikum/springrestbackend/controller/UserController.java:134-152 | for a freshly generated id: a non-empty error list is the 400 body and nothing is written; otherwise exactly one create with the encoded password; 200 iff the save succeeds, and then the store gains exactly that row |
| UserController.RegisteredUserIsFound | src/main/java/at/technikum/springrestbackend/controller/UserController.java:134-152 | after registration the user is found by username and by email with the encoded password, and its role is reported |
| UserController.RegisterThenDeleteRestores | src/main/java/at/technikum/springrestbackend/controller/UserController.java:110-127 | registering a user and then deleting it by name as that user restores the table |
| UserController.UploadUserImage | src/main/java/at/technikum/springrestbackend/controller/UserController.java:211-242 | an empty or missing file answers 400 before any store access; an I/O failure answers 500; an unknown user escapes; for a present user, a non-owner non-admin gets 401 and a missing role escapes, with no write and the store unchanged; an owner or admin hands over the stored user with the new picture and its password encoded again |
| UserController.UploadUserImageIntended | src/main/java/at/technikum/springrestbackend/controller/UserController.java:211-242 | the same guards and the same owner-or-admin outcomes; a granted upload hands over the stored record with only the picture changed |
| UserController.UploadUserImageIsUpdate | src/main/java/at/technikum/springrestbackend/controller/UserController.java:231-233 | for a present user, a non-empty file and no I/O failure, the upload answers, writes and leaves exactly what the update handler does for the stored user with the new picture |
| UserController.UploadUserImageIntendedIsUpdate | src/main/java/at/technikum/springrestbackend/controller/UserController.java:231-233 | the intended upload in the same situation is exactly the update of the stored user with the new picture and the stored hash kept |
| UserController.UploadRehashesStoredPassword | src/main/java/at/technikum/springrestbackend/controller/UserController.java:231-233 | on a concrete store the upload hands over an encoding of the stored hash, while the intended upload keeps the hash |
| PhoneController.HandlePhoneDeletion | src/main/java/at/technikum/springrestbackend/controller/PhoneController.java:107-114 | a null phone answers 404 "Phone not found" and writes nothing; a present phone's id alone is removed, 200 "Phone deleted successfully" |
| PhoneController.DeletePhone | src/main/java/at/technikum/springrestbackend/controller/PhoneController.java:98-102 | an unknown id raises (no 404 from here); a known id is removed with 200 |
| PhoneController.DeletePhoneTwice | src/main/java/at/technikum/springrestbackend/service/PhoneService.java:23-25 | deleting the same phone twice: the second request raises instead of answering 404 |
| PhoneController.HandlePhoneUpdate | src/main/java/at/technikum/springrestbackend/controller/PhoneController.java:116-124 | 200 iff the affected-row count is positive, else 404 "Phone not found"; a raised failure escapes |
| PhoneController.UploadPhoneImage | src/main/java/at/technikum/springrestbackend/controller/PhoneController.java:68-97 | an empty file answers 400 before any store access; an I/O failure returns null; an unknown id escapes; otherwise one update with the stored phone's fields |
| PhoneController.UploadedPictureNotForwarded | src/main/java/at/technikum/springrestbackend/controller/PhoneController.java:84-90 | the uploaded file's name never reaches `updatePhoneInfo`, for the 7-argument call as written |
| PhoneController.UpdateReplyFollowsCount | src/main/java/at/technikum/springrestbackend/controller/PhoneController.java:117-123 | two update queries that both return, with counts on the same side of zero, give the same reply and the same single update call |
| PhoneController.UploadIsUpdateOfStoredPhone | src/main/java/at/technikum/springrestbackend/controller/PhoneController.java:88-90 | a non-empty upload to a present phone without an I/O failure answers exactly what an update with the stored phone answers |
| AuthController.Token | src/main/java/at/technikum/springrestbackend/controller/AuthController.java:26-29 | the request is handed to `authenticate` unchanged |
| AuthController.TokenEmail | src/main/java/at/technikum/springrestbackend/controller/AuthController.java:31-38 | `authenticate` answers the one forwarded request; the password is untouched; a user with that email supplies the username; with no such user the request passes as typed |
| AuthController.EmailLoginFallsBack | src/main/java/at/technikum/springrestbackend/controller/AuthController.java:34-37 | with no user having that email, the email login equals the plain login |
| AuthController.EmailLoginResolves | src/main/java/at/technikum/springrestbackend/controller/AuthController.java:33-35 | with a user having that email, the email login equals the plain login under that user's username |
| Orders.NewOrder | src/main/java/at/technikum/springrestbackend/model/Orders.java:44-47 | a new order holds the given user and no phones |
| Orders.AddPhone | src/main/java/at/technikum/springrestbackend/model/Orders.java:49 | one more phone, at the end; earlier phones and the user unchanged |
| Orders.AddPhonesAppends | src/main/java/at/technikum/springrestbackend/model/Orders.java:49 | a run of `addPhone` calls appends exactly those phones, in order |
| Orders.BuiltOrderHoldsPhones | src/main/java/at/technikum/springrestbackend/model/Orders.java:33-49 | an order built from a new one by adding phones holds exactly those phones, for its user |

## Findings

| source | as written | input that shows it | evidently intended | confidence | as-written member | corrected member |
|---|---|---|---|---|---|---|
| src/main/java/at/technikum/springrestbackend/controller/UserController.java:96-108 | `getUser` raises on a missing id (`orElseThrow`), so the null check of `handleUserDeletion` is dead and the catch-all answers 500 | any id not in the table, no repository failure | 404 "User not found", as UserControllerTest.java:152-162 and 218-223 expect | high; not executed | UserController.DeleteUserById | UserController.DeleteUserByIdIntended |
| src/main/java/at/technikum/springrestbackend/controller/UserController.java:231-233 | the stored user, whose password is already a BCrypt hash, goes through `handleUserUpdate`, which encodes the password again (lines 175-176) | user "alice" with stored hash "$2a$pw" uploads "me.png"; the update carries "$2a$$2a$pw", so "pw" no longer matches | only the picture changes; the stored hash is kept | high; not executed | UserController.UploadRehashesStoredPassword | UserController.UploadUserImageIntended |

## Left out

- Token issuing and verification (`JwtDecoder`, `TokenIssuer`, `JwtToPrincipalConverter`): HMAC-SHA256 JWTs are cryptography. The principal is an input, and an expired token is the `TokenExpired` failure.
- BCrypt (`Hasher`): modelled as a fixed function. Real BCrypt salts each encoding at random.
- File-system work in both `uploadImage` handlers (directory creation, `Files.copy`): this is I/O, reduced to an `ioFailure` flag. The saved phone picture path is approximated as `uploads/<name>`; it is never forwarded.
- The queries of `updateUserInfo` and `updatePhoneInfo`: not visible, so each is a function parameter. PhoneController.java:117 passes 7 arguments while PhoneService.java:64 takes 8.
- UserStore.Insert: the reaction of `save` to a duplicate username or email is assumed to be a constraint violation (caught as 500). The `User` entity is not part of this model. Insert also refuses an id already in the table, whereas Spring Data's `save` would merge; registration never reaches that case, since the database generates a fresh id (`HandleUserCreation` requires it).
- User profile fields: `firstname`, `lastname`, `salutation`, `countryCode`, `postalCode`, `street`, `city`, `houseNumber` and `status`, which `handleUserUpdate` forwards unchanged to `updateUserInfo` (UserController.java:179-195), are dropped from `User`. No decision depends on them.
- UserController.ApplyUserUpdate: does not ensure the store invariant afterwards, because the table after an update comes from the abstract query.
- Failures of the lookups in `getUserRole`, `tokenEmail`, the user upload and the phone upload (`getPhone` at PhoneController.java:88): not modelled. Only the repository calls inside a `try` and the calls of `deletePhone` take `Faults`; the phone update's failure comes from the abstract query.
- Pass-through endpoints: the reads (`getUsers`, `getUser`, the list queries, `getPhones`, ...) and the write `createPhone`, which saves the submitted phone. They forward to Spring Data repositories and decide nothing.
- Phone display size and price: these float fields, and the two float arguments of `updatePhoneInfo` (PhoneController.java:117), are dropped from `Phone` and `PhoneUpdate`. Floating point is not modelled.
- `OrderController` is not part of this model. Nor are `UserValidator`, whose error list is an input, order timestamps, float-keyed phone queries, `PasswordValidator.main` console output, and Spring routing, CORS and `@Valid` processing.
- Lone UTF-16 surrogates: a password is a sequence of Unicode scalar values, so they cannot be expressed.
