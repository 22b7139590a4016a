# sc-refinery schemas in Dafny

This project models the request and response schemas of the sc-refinery API
(`screfinery/schema.py`). They are pydantic models that validate inbound JSON
bodies before they reach the database, and they build response models from
persisted records.

The model covers three groups of behaviour.

- **Request validation.** Each Create, Update and Query schema is a function
  from a payload to either the validated record or the list of every field
  error. A payload field is three-state: left out, sent as null, or sent with
  a value. Fields are checked in declaration order, and each error carries the
  location pydantic gives it (field key, then list position, then nested
  field). Each schema also has a declarative reference predicate, and lemmas
  show three things:
  - the validator accepts exactly the payloads the reference accepts;
  - it reports an error under exactly the keys of the fields that break their
    rule;
  - a validated record holds the values that were sent.
- **The `passwords_match` validator** on `UserCreate` and `UserUpdate`. The
  values validated before `password_confirm` are a map, so the
  `'password' in values` guard is explicit. A password that failed its own
  length check is not in the map. A password left out of an update is in the
  map with its default, None.
- **The `from_orm` projections** of `User`, `Friendship`,
  `StationOreEfficiency` and `MethodOreEfficiency`. Each record is a value,
  and its relations are already loaded or missing.

The mail format `^[^@]+@[^@]+$` is a predicate on the string. It is proved
equivalent to this statement: the string is non-empty, holds exactly one `@`,
and neither starts nor ends with it.

Modules, one per file:

| file | module | what it holds |
|---|---|---|
| mail.dfy | MailAddress | the mail pattern and its characterisation |
| validation.dfy | Validation | field states, error locations, constrained strings and floats, required and optional fields, list fields |
| requests.dfy | Requests | the nested item models `Related`, `StationOreEfficiency`, `MethodOreEfficiency` |
| users.dfy | UserRequests | `UserCreate`, `UserUpdate`, `UserQuery`, `passwords_match` |
| catalog.dfy | CatalogRequests | `OreCreate`, `OreUpdate`, `StationCreate`/`Update`, `MethodCreate`/`Update` |
| sessions.dfy | SessionRequests | `MiningSessionCreate`, `MiningSessionUpdate`, `FriendshipUpdate` |
| responses.dfy | Responses | the `from_orm` projections |

### How pydantic behaves here

The model follows pydantic v1 field validation as the schemas use it:

- A required field that is left out fails with "missing".
- A required field sent as null fails with "none is not an allowed value".
- An `Optional[...]` field left out takes the default None without being
  validated, and its validators do not run.
- An `Optional[...]` field sent as null skips its type constraint. Its
  validators do run, with None.
- An item of a `List[...]` field may not be null. A null item fails with
  "none is not an allowed value" at the field's key and the item's position.
- `constr` checks the length before the regex. `confloat` checks `gt` before
  `le`. Only the first failure of a value is reported.
- Every field is checked, and all errors are returned together. A
  field-level validator sees only the fields declared before it that passed.

### `passwords_match` on `UserUpdate`

One might expect that supplying only one of `password` and
`password_confirm` skips the comparison. The code at
`screfinery/schema.py:151-155` behaves differently.
- A password that is left out still enters `values` as None.
- So a confirmation sent without a password is compared with None and
  rejected.
- A password sent without a confirmation is never compared, because the
  validator does not run on a field that is left out.

The model follows the code:
- `UserRequests.UserUpdateConfirmationWithoutPassword` proves the first case.
- `UserRequests.UserUpdatePasswordWithoutConfirmation` proves the second.

## Model

| member | source | states |
|---|---|---|
| MailAddress.MailPatternCharacterised | screfinery/schema.py:128 | a string matches `^[^@]+@[^@]+$` exactly when it is non-empty, holds exactly one `@`, and neither starts nor ends with `@` |
| MailAddress.MailPatternNeedsOneAt | screfinery/schema.py:144 | a string with no `@` or with several never matches the mail pattern |
| Validation.CheckStr | screfinery/schema.py:127-130 | a constrained string passes exactly when it is within its length bound and, for mail, matches the pattern; otherwise it fails with one unlocated error, too-long before pattern-mismatch |
| Validation.CheckFloat | screfinery/schema.py:232-233 | a constrained float passes exactly when it is above the exclusive lower bound and within the inclusive upper bound; the lower-bound error is reported first |
| Validation.Require | screfinery/schema.py:131-132 | a required field passes exactly when it is sent with a value; left out it fails as missing, null it fails as none-not-allowed |
| Validation.RequiredStr | screfinery/schema.py:127 | a required constrained string passes exactly when sent and within its rule, keeping the value; any failure is one error that is not a cross-field one |
| Validation.OptionalStr | screfinery/schema.py:143 | an optional constrained string passes when left out or null, and when sent it passes exactly when within its rule; a valid outcome keeps the field's state |
| Validation.RequiredFloat | screfinery/schema.py:232 | a required constrained float passes exactly when sent and within its range, keeping the value |
| Validation.CollectReports | screfinery/schema.py:126-133 | collecting a field's outcome in front of the later fields' errors reports under a key exactly when that field failed and the key is its own, or a later field reports there |
| Validation.CollectHas | screfinery/schema.py:126-133 | an error located at a field's key is in the collected list exactly when that field raised it, or a later field's errors hold it |
| Validation.CheckItems | screfinery/schema.py:223 | a list is valid exactly when every item passes the item check, and then holds one value per item |
| Validation.CheckItemsAllValues | screfinery/schema.py:223 | a valid list holds, at each position, the value its item validated to |
| Validation.CheckItemsKeepsItemErrors | screfinery/schema.py:223 | every error of a failing item appears in the list's errors under that item's position |
| Validation.CheckItemsReportsEachItem | screfinery/schema.py:223 | a checked list reports exactly at the positions of its failing items and at no other location |
| Validation.AllValidNonNull | screfinery/schema.py:223 | with nulls refused, every item passes exactly when every item is sent and passes the item model's check |
| Validation.NullItemReported | screfinery/schema.py:133 | a null item of a list is reported at its position as none-not-allowed |
| Validation.RequiredItems | screfinery/schema.py:223 | a required list (`efficiencies` here and at line 266) passes exactly when it is sent and every item is sent and valid, and then holds each item's validated value in order; left out it fails as missing, null as none-not-allowed; a sent list carries the item errors |
| Validation.OptionalItems | screfinery/schema.py:335 | an optional list (`users_invited` here; `scopes` at lines 133 and 149, `efficiencies` at 228 and 271) passes when left out or null, keeping that state, and when sent exactly when every item is sent and valid, then holding each item's validated value in order; a sent list carries the item errors |
| Validation.ItemsReportedAt | screfinery/schema.py:223 | a list field's errors report under a location exactly when the list was sent and the location is the position of an item that is null or fails |
| Validation.CheckStrItemsExact | screfinery/schema.py:133 | a list of constrained strings passes exactly when no item is null and every string is within the rule, and then holds the strings unchanged |
| Validation.OptionalStrItems | screfinery/schema.py:133 | an optional list of constrained strings passes when left out or null and, when sent, exactly when no item is null and every string is within the rule; a valid outcome keeps the field's state and the sent strings |
| Requests.ValidateRelated | screfinery/schema.py:20-25 | a reference validates exactly when both id and name are sent, to those values |
| Requests.RelatedReportsViolations | screfinery/schema.py:24-25 | a reference reports under id or name exactly when that field is missing or null, and under no other key |
| Requests.ValidateStationOreEfficiency | screfinery/schema.py:190-193 | a station efficiency validates exactly when efficiency_bonus and ore_id are sent; the result carries them and ore_name in its sent state |
| Requests.StationOreEfficiencyReportsViolations | screfinery/schema.py:191-192 | a station efficiency reports under exactly the required fields that are missing or null |
| Requests.ValidateMethodOreEfficiency | screfinery/schema.py:231-235 | a method efficiency validates exactly when 0 < efficiency <= 1, duration > 0 and ore_id is sent; the result carries the sent values |
| Requests.MethodOreEfficiencyReportsViolations | screfinery/schema.py:232-234 | a method efficiency reports under efficiency, duration or ore_id exactly when that field breaks its range or is missing, and under no other key |
| Requests.MethodOreEfficiencyLocatesRangeError | screfinery/schema.py:232 | an efficiency of 0 or less is reported under efficiency as not greater than 0 |
| Requests.MethodOreEfficiencyRoundTrip | screfinery/schema.py:231-235 | a validated method efficiency sent back as a payload validates to itself |
| Requests.EfficiencyBoundaries | screfinery/schema.py:232-233 | efficiency 0 is rejected as not greater than 0, 1 is accepted, 1.5 is rejected as not at most 1; duration 0 is rejected |
| UserRequests.PasswordsMatch | screfinery/schema.py:135-139 | its ensures is the guard at line 137: the validator fails exactly when password is among the validated values and differs from the confirmation, and its error is the mismatch; the consequences for whole payloads are proved in UserRequests.UserCreateMismatch and UserRequests.UserUpdateMismatch |
| UserRequests.ValuesBeforeConfirm | screfinery/schema.py:126-130 | the values seen by password_confirm hold password exactly when password passed its own check, and then hold its value |
| UserRequests.ConfirmRequired | screfinery/schema.py:130-139 | the confirmation on UserCreate passes exactly when within its length and passwords_match passes; the mismatch error appears exactly when it was within its length and passwords_match failed |
| UserRequests.ConfirmOptional | screfinery/schema.py:146-155 | the confirmation on UserUpdate passes when left out, and otherwise exactly when within its length and passwords_match passes with its value or None |
| UserRequests.ValidateUserCreate | screfinery/schema.py:126-139 | a UserCreate validates exactly when every field rule holds and the passwords match, to the sent values, a sent scope list holding the sent scopes; otherwise it yields every field error |
| UserRequests.UserCreateReportsAt | screfinery/schema.py:126-133 | the UserCreate errors report under a location exactly when it is the key of a field whose own outcome failed |
| UserRequests.UserCreateReportsName | screfinery/schema.py:127 | name is reported exactly when it is missing, null or over 50 characters |
| UserRequests.UserCreateReportsMail | screfinery/schema.py:128 | mail is reported exactly when it is missing, null, over 250 characters or outside the pattern |
| UserRequests.UserCreateReportsPassword | screfinery/schema.py:129 | password is reported exactly when it is missing, null or over 250 characters |
| UserRequests.UserCreateReportsConfirm | screfinery/schema.py:130-139 | password_confirm is reported exactly when it is missing, null, over 250 characters, or both passwords are within 250 characters and differ |
| UserRequests.UserCreateReportsFlags | screfinery/schema.py:131-132 | is_google and is_active are each reported exactly when missing or null |
| UserRequests.UserCreateReportsScopes | screfinery/schema.py:133 | scopes is reported exactly when a sent list holds a null or a scope over 50 characters |
| UserRequests.UserCreateNullScope | screfinery/schema.py:133 | a null scope is reported at scopes and its position as none-not-allowed |
| UserRequests.UserCreateReportsNoOtherKey | screfinery/schema.py:126-133 | no key other than the seven declared fields is ever reported |
| UserRequests.UserCreateMismatch | screfinery/schema.py:135-139 | the mismatch error appears on password_confirm exactly when both passwords are within 250 characters and differ |
| UserRequests.UserCreateEqualPasswords | screfinery/schema.py:137 | equal passwords never raise the mismatch error |
| UserRequests.UserCreateLongPasswordNotCompared | screfinery/schema.py:129-139 | a password over 250 characters is reported and, being absent from the values, is not compared: no mismatch error |
| UserRequests.UserCreateNameRule | screfinery/schema.py:127 | a name over 50 characters is rejected as too long, and one within 50 is not reported |
| UserRequests.UserCreateMailRule | screfinery/schema.py:128 | a mail over 250 characters is rejected as too long whatever its form; within 250, one outside the pattern is rejected as a mismatch; mail is unreported exactly when within 250 and in the pattern |
| UserRequests.ValidateUserUpdate | screfinery/schema.py:142-155 | a UserUpdate validates exactly when every sent field is within its rule, a sent scope list has no null, and passwords_match passes; it then holds the payload as sent, keeping left-out and null fields apart |
| UserRequests.UserUpdateReportsAt | screfinery/schema.py:142-149 | the UserUpdate errors report under a location exactly when it is the key of a field whose own outcome failed |
| UserRequests.UserUpdateReportsName | screfinery/schema.py:143 | name is reported exactly when sent and over 50 characters |
| UserRequests.UserUpdateReportsMail | screfinery/schema.py:144 | mail is reported exactly when sent and over 250 characters or outside the pattern |
| UserRequests.UserUpdateReportsPassword | screfinery/schema.py:145 | password is reported exactly when sent and over 250 characters |
| UserRequests.UserUpdateReportsConfirm | screfinery/schema.py:146-155 | password_confirm is reported exactly when sent over 250 characters or when passwords_match fails |
| UserRequests.UserUpdateReportsScopes | screfinery/schema.py:149 | scopes is reported exactly when a sent list holds a null or a scope over 50 characters |
| UserRequests.UserUpdateReportsNoOtherKey | screfinery/schema.py:142-149 | no key other than name, mail, password, password_confirm and scopes is ever reported |
| UserRequests.UserUpdateMismatch | screfinery/schema.py:151-155 | the mismatch error appears exactly when a confirmation is sent, both values are within 250 characters, and the confirmation differs from the password or from None when no password was sent |
| UserRequests.UserUpdateConfirmationLeftOut | screfinery/schema.py:146 | a confirmation left out is never compared |
| UserRequests.UserUpdateEqualPasswords | screfinery/schema.py:153 | equal passwords, whether sent, null or left out, never raise the mismatch error |
| UserRequests.UserUpdateConfirmationWithoutPassword | screfinery/schema.py:145-155 | a confirmation sent without a password is compared with None and rejected |
| UserRequests.UserUpdatePasswordWithoutConfirmation | screfinery/schema.py:145-155 | whatever the other fields hold, a password sent without a confirmation is not compared: the update is accepted exactly when name, mail, password and scopes meet their own rules, and then holds the payload as sent |
| UserRequests.UserUpdateMailRule | screfinery/schema.py:144 | a sent mail follows the same bound and pattern as on UserCreate |
| UserRequests.ValidateUserQuery | screfinery/schema.py:158-166 | a query is rejected only for a sent mail outside the pattern, with that one error, and otherwise validates to itself |
| UserRequests.MailLengthBoundsWritesOnly | screfinery/schema.py:128-161 | a well-formed 251-character mail is too long for UserCreate and UserUpdate and accepted by UserQuery |
| CatalogRequests.ValidateOreCreate | screfinery/schema.py:182-183 | an ore name validates exactly when sent and within 50 characters; left out, null or too long yields exactly that one error |
| CatalogRequests.ValidateOreUpdate | screfinery/schema.py:186-187 | an ore update validates to itself exactly when a sent name is within 50 characters; otherwise it yields the too-long error |
| CatalogRequests.ValidateEfficienciesCreate | screfinery/schema.py:221-223 | a name and efficiencies create validates exactly when the name is within 50 characters and the list is sent with every item non-null and valid, to the name and the items' values in order |
| CatalogRequests.EfficienciesCreateReportsViolations | screfinery/schema.py:222-223 | a create reports under name or efficiencies exactly when that field breaks its rule, and under no other key |
| CatalogRequests.EfficienciesCreateReportsItems | screfinery/schema.py:223 | under efficiencies, a create reports exactly the positions of the items that are null or fail |
| CatalogRequests.EfficienciesCreateNullItem | screfinery/schema.py:223 | a null efficiency is reported at efficiencies and its position as none-not-allowed |
| CatalogRequests.EfficienciesCreateNameRule | screfinery/schema.py:222 | a name over 50 characters is rejected as too long, and one within 50 is not reported |
| CatalogRequests.EfficienciesCreateKeepsItemErrors | screfinery/schema.py:223 | each error of a failing item appears under efficiencies, at its position |
| CatalogRequests.ValidateEfficienciesUpdate | screfinery/schema.py:226-228 | an update validates exactly when a sent name is within 50 characters and a sent list has every item non-null and valid; the name's and list's states are kept and a sent list holds its items' values |
| CatalogRequests.EfficienciesUpdateReportsViolations | screfinery/schema.py:227-228 | an update reports under name or efficiencies exactly when that sent field breaks its rule, and under no other key |
| CatalogRequests.EfficienciesUpdateReportsItems | screfinery/schema.py:228 | under efficiencies, an update reports exactly the positions of the items that are null or fail |
| CatalogRequests.ValidateStationCreate | screfinery/schema.py:221-223 | a StationCreate validates exactly when the name is within 50 characters and every station efficiency is non-null and has its bonus and ore id, each item keeping its values |
| CatalogRequests.ValidateMethodCreate | screfinery/schema.py:264-266 | a MethodCreate validates exactly when the name is within 50 characters and every method efficiency is non-null and within its ranges, each item keeping its values |
| CatalogRequests.ValidateStationUpdate | screfinery/schema.py:226-228 | a StationUpdate validates exactly when its sent fields are valid, keeping every field's state and each item's values |
| CatalogRequests.ValidateMethodUpdate | screfinery/schema.py:269-271 | a MethodUpdate validates exactly when its sent fields are valid, keeping every field's state and each item's values |
| CatalogRequests.MethodCreateLocatesRangeError | screfinery/schema.py:264-266 | an item's efficiency of 0 or less is reported at efficiencies, its position, efficiency, as not greater than 0 |
| SessionRequests.ValidateMiningSessionCreate | screfinery/schema.py:325-327 | a session create validates exactly when creator_id is sent and the name is sent within 50 characters, to those values |
| SessionRequests.MiningSessionCreateReportsViolations | screfinery/schema.py:326-327 | a session create reports under creator_id or name exactly when that field breaks its rule, and under no other key |
| SessionRequests.MiningSessionCreateNameRule | screfinery/schema.py:327 | a name over 50 characters is rejected as too long, and one within 50 is not reported |
| SessionRequests.ValidateMiningSessionUpdate | screfinery/schema.py:330-335 | a session update validates exactly when a sent name is within 50 characters and the sent list has no null and every reference has id and name; every field keeps its state and each reference its values |
| SessionRequests.MiningSessionUpdateReportsViolations | screfinery/schema.py:331-335 | a session update reports under name or users_invited exactly when that field breaks its rule, and under no other key |
| SessionRequests.MiningSessionUpdateReportsItems | screfinery/schema.py:335 | under users_invited, a session update reports exactly the positions of the references that are null or miss an id or a name |
| SessionRequests.MiningSessionUpdateNullInvited | screfinery/schema.py:335 | a null reference is reported at users_invited and its position as none-not-allowed |
| SessionRequests.ValidateFriendshipUpdate | screfinery/schema.py:80-86 | a friendship update validates exactly when both ids are sent and each sent name is within 50 characters; the optional fields keep their states |
| SessionRequests.FriendshipUpdateReportsViolations | screfinery/schema.py:80-86 | a friendship update reports under exactly the fields that break their rule, never under confirmed |
| Responses.ScopeNames | screfinery/schema.py:122 | the flattened scopes have one name per scope record, the i-th being the i-th record's scope |
| Responses.ScopeNamesConcat | screfinery/schema.py:122 | flattening two runs of records gives the names of the first run followed by those of the second |
| Responses.ScopeListed | screfinery/schema.py:122 | a scope is listed exactly when some record of the user carries it |
| Responses.UserFromOrm | screfinery/schema.py:111-123 | every response field equals the record's same-named field, and scopes are the record's scope names in order |
| Responses.FriendshipFromOrm | screfinery/schema.py:60-69 | with both users loaded, user_name and friend_name come from the loaded users, and ids and timestamps come from the friendship; a missing user or friend fails the projection |
| Responses.StationOreEfficiencyFromOrm | screfinery/schema.py:198-204 | with the ore loaded, ore_name is the ore's name and the other fields are copied; a missing ore fails the projection |
| Responses.MethodOreEfficiencyFromOrm | screfinery/schema.py:240-247 | with the ore loaded and the stored values within their ranges, ore_name is the ore's name and the other fields are copied; a missing ore fails, and out-of-range values are rejected with the model's errors |
| Responses.StoredEfficiencyOutOfRange | screfinery/schema.py:231-247 | a stored efficiency of 0 or less is rejected by the projection with the error under efficiency |

## Left out

- Type coercion and parsing: payload fields arrive already typed, so pydantic's int, float, bool and datetime coercion and its errors are not modelled.
- Timestamps are opaque values: datetime parsing and ISO 8601 serialisation happen in pydantic and are not shown.
- Floating point: `efficiency`, `duration` and the other floats are `real`, so rounding and NaN are not modelled.
- Error messages: each error carries a kind (missing, none-not-allowed, too long, pattern mismatch, range, passwords do not match), not pydantic's message text or error type string.
- The unconstrained fields of the Update and Query schemas: `is_google`, `is_active`, `archived`, `yield_scu`, `yield_uec`, `confirmed`, and the `UserQuery` filters other than mail. Without coercion they cannot fail, so they are carried through unchecked.
- `Login` (`screfinery/schema.py:36-38`) is not modelled. It bounds `username` and `password` at 250 characters, which is the same `constr` rule as `Validation.RequiredStr` with a length of 250.
- `FriendshipListUpdate` (`screfinery/schema.py:89-91`) is not modelled. Each of its two optional lists validates every item as a `FriendshipUpdate`, which is `Validation.OptionalItems` over `SessionRequests.ValidateFriendshipUpdate`.
- `ListResponse` and `FriendshipList` are not modelled. They hold lists of response models, built by the model's own projections or by pydantic's generic code.
- The response models without a `from_orm` override are not modelled: `UserScope`, `Ore`, `Station`, `Method`, `MiningSessionEntry`, `MiningSession` and `MiningSessionListItem`. Their default `orm_mode` projection is more than a copy:
  - `UserScope` (`screfinery/schema.py:41-46`) checks `scope` again against 50 characters;
  - `Station` and `Method` (`screfinery/schema.py:207-218`, `screfinery/schema.py:250-261`) build each efficiency through the overridden item `from_orm`, which is `Responses.StationOreEfficiencyFromOrm` and `Responses.MethodOreEfficiencyFromOrm`;
  - `MiningSessionEntry` (`screfinery/schema.py:274-286`) has no `orm_mode`, so it cannot be built from a record at all.
- `orm_mode`, `GenericModel` and persistence, HTTP routing and authentication: none of their logic is in this file.
- A general regular-expression engine: only the pattern `^[^@]+@[^@]+$` is modelled, as a predicate.
- UserRequests.UserCreateReportsName and the other per-field report lemmas state each field's rule one field at a time, with a separate lemma for keys outside the schema. They do not take the field as a parameter, as the smaller schemas' report lemmas do. UserRequests.UserCreateReportsAt and UserRequests.UserUpdateReportsAt do take the location, but state it in terms of each field's outcome rather than its rule.
