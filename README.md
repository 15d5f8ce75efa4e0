# User registration core, modelled in Dafny

This project models the logic of a small user registration application: a
React front end over an in-memory store of Brazilian user records. Each record
has a CPF (the national taxpayer number with two check digits), a phone, a
CEP (postal code) and an address. The modelled core has six parts.

- **Field library** (`Utils`, from `src/services/utils.ts`):
  - digit stripping;
  - the fixed-layout formatters for CPF, phone and CEP;
  - ISO ↔ Brazilian date conversion;
  - the CPF check-digit algorithm (a method with its two loops);
  - the e-mail test, capitalisation and truncation.

  `UtilsExamples` derives the concrete cases of `src/services/utils.test.ts` from that model.
- **User store** (`UserStore`, from `src/services/userService.ts`): the class
  `UserService`, holding a `seq<User>` and the id counter.
  - Its methods append, look up, search and page, merge an update, delete, check for duplicates, count statistics and reset.
  - Its invariant: the counters encoded in the ids are strictly increasing and below the next counter, so ids are distinct.
- **Records** (`UserModel`, from `src/interfaces/User.ts` and the record-building parts of the store):
  - the id format `user_<counter>_<time>`;
  - the defaults a creation fills in;
  - the field-by-field merge of an update.
- **UI state machine** (`UserContext`, from `src/context/UserContext.tsx`): the reducer as a pure function over a state value and the `UserAction` variant.
- **Orchestration** (`UseUsers`, from `src/hooks/useUsers.ts`):
  - the filter payloads;
  - `loadUsers`;
  - the create, edit and remove sequences, as methods over a `UserService` object and a reducer state value.
- **Form and CEP rules**:
  - `Forms` (from `src/interfaces/Forms.ts`): the rules of the form schema as predicates, related to the formatters' outputs;
  - `ViaCep` (from `src/services/viaCepService.ts`): the pure CEP service helpers.

Shared pieces:

- `Strings`: the JavaScript string primitives the code relies on, over `seq<char>`: `\d`, `\s`, `trim`, one-character `split`/`join`, `includes`, `padStart`, ASCII case mapping, decimal rendering.
- `Wrappers`: `Option` and `Result`. Thrown errors are `Failure(message)`.

The clock is a parameter: `now` stands for `Date.now()`, and `stamp`, `created` and `updated` for readings of `new Date().toISOString()`.

## Model

| member | source | states |
|---|---|---|
| Utils.OnlyNumbers | src/services/utils.ts:118-120 | the result consists of digits only and is no longer than the input |
| Utils.OnlyNumbersConcat | src/services/utils.ts:118-120 | stripping distributes over concatenation |
| Utils.OnlyNumbersFixesDigits | src/services/utils.ts:118-120 | stripping leaves a string unchanged exactly when it is all digits |
| Utils.OnlyNumbersNoDigits | src/services/utils.ts:118-120 | a string without digits strips to the empty string |
| Utils.OnlyNumbersIdempotent | src/services/utils.ts:118-120 | stripping twice equals stripping once |
| Utils.FormatCpfSpec | src/services/utils.ts:6-12 | the digits of the result are the digits of the input; eleven digits give the `ddd.ddd.ddd-dd` layout; any other count returns the input unchanged |
| Utils.FormatCpfIdempotent | src/services/utils.ts:6-12 | formatting a formatted CPF changes nothing |
| Utils.FormatCpfKeepsFormatted | src/services/utils.ts:6-12 | a string already in the CPF layout comes back unchanged |
| Utils.FormatPhoneSpec | src/services/utils.ts:19-27 | the digits are kept; eleven digits give `(dd) ddddd-dddd`; ten give `(dd) dddd-dddd`; other counts return the input |
| Utils.FormatPhoneIdempotent | src/services/utils.ts:19-27 | formatting a formatted phone changes nothing |
| Utils.FormatPhoneKeepsFormatted | src/services/utils.ts:19-27 | a string already in either phone layout comes back unchanged |
| Utils.PhoneLayoutDigits | src/services/utils.ts:19-27 | the digits of a phone layout are its three groups in order, ten or eleven of them |
| Utils.FormatCepSpec | src/services/utils.ts:34-40 | the digits are kept; eight digits give `ddddd-ddd`; other counts return the input |
| Utils.FormatCepIdempotent | src/services/utils.ts:34-40 | formatting a formatted CEP changes nothing |
| Utils.FormatCepKeepsFormatted | src/services/utils.ts:34-40 | a string already in the CEP layout comes back unchanged |
| Utils.FormatDateSpec | src/services/utils.ts:47-55 | `""` gives `""`; input without exactly three `-`-parts is returned unchanged; an input `a-b-c` of three parts gives `c/b/a`, which splits back into those parts when the input holds no `/` |
| Utils.DateRoundTrip | src/services/utils.ts:47-67 | `y-m-d` with month and day of at least two characters displays as `d/m/y`, and `parseDate` of that gives `y-m-d` back |
| Utils.ParseDatePads | src/services/utils.ts:62-67 | for three `/`-parts the result has three `-`-parts: the year first, then month and day, each one-character part zero-padded and longer ones kept |
| Utils.CheckDigit | src/services/utils.ts:87-88 | a check digit is always a single digit (0 to 9) |
| Utils.ValidateCpf | src/services/utils.ts:74-101 | the two loops compute `IsValidCpf`: false unless exactly eleven digits remain after stripping, false when all eleven are equal, and otherwise true exactly when both check digits match |
| Utils.FirstCheckDigitFormula | src/services/utils.ts:83-89 | the first check digit is `(10·d0 + … + 2·d8)·10 mod 11`, with 10 read as 0 |
| Utils.SecondCheckDigitFormula | src/services/utils.ts:92-98 | the second check digit is `(11·d0 + … + 2·d9)·10 mod 11`, with 10 read as 0 |
| Utils.ValidateCpfDigitsOnly | src/services/utils.ts:75 | validity depends only on the digits: `validateCpf(s) == validateCpf(onlyNumbers(s))` |
| Utils.FormatCpfKeepsValidity | src/services/utils.ts:6-12 | formatting a CPF does not change whether it is valid |
| Utils.CompleteCpf | src/services/utils.ts:83-98 | appends the two check digits to nine digits, keeping those nine |
| Utils.ValidCpfIffComplete | src/services/utils.ts:83-100 | eleven digits, not all equal, are valid exactly when the last two are the check digits computed from the first nine |
| Utils.CheckDigitTamperDetected | src/services/utils.ts:89-98 | changing either check digit of a valid CPF to a different digit makes it invalid |
| Utils.ValidateEmailShape | src/services/utils.ts:108-111 | an accepted e-mail has no whitespace and exactly one `@` |
| Utils.ValidateEmailRejects | src/services/utils.ts:108-111 | an e-mail without `@`, with `@` first or last, with white space, or without a `.` before its last character is rejected |
| Utils.ValidateEmailAccepts | src/services/utils.ts:108-111 | `local@domain.tld` with all three parts non-empty and free of `@` and white space is accepted |
| Utils.CapitalizeAllAppend | src/services/utils.ts:131 | capitalising a list of words works word by word |
| Utils.CapitalizeSingleWord | src/services/utils.ts:127-133 | text without a space becomes its lower-cased form with the first character upper-cased |
| Utils.CapitalizeAroundSpace | src/services/utils.ts:127-133 | capitalising `a + " " + b` capitalises `a` and `b` separately and keeps the space, so runs of spaces survive |
| Utils.TruncateText | src/services/utils.ts:141-145 | text of at most `maxLength` characters is returned as is; longer text ends in `...` after a prefix of the text; its length is `maxLength`, or 3 when `maxLength` is below 3 |
| UtilsExamples.ValidCpfExample | src/services/utils.test.ts:108 | `11144477735` is valid |
| UtilsExamples.ValidFormattedCpfExample | src/services/utils.test.ts:109 | `111.444.777-35` is valid |
| UtilsExamples.WrongCheckDigitExample | src/services/utils.test.ts:113 | `12345678901` is invalid |
| UtilsExamples.WrongFormattedCheckDigitExample | src/services/utils.test.ts:114 | `111.444.777-36` is invalid |
| UtilsExamples.RepeatedDigitExample | src/services/utils.test.ts:118 | `11111111111` is invalid |
| UtilsExamples.RepeatedFormattedDigitExample | src/services/utils.test.ts:119 | `000.000.000-00` is invalid |
| UtilsExamples.WrongLengthCpfExamples | src/services/utils.test.ts:122-129 | `123`, `123456789012` and `""` are invalid |
| UtilsExamples.FormatCpfExample | src/services/utils.test.ts:19 | `12345678901` formats as `123.456.789-01` |
| UtilsExamples.FormatCpfUnchangedExamples | src/services/utils.test.ts:22-33 | `123` and `""` come back unchanged |
| UtilsExamples.FormatLongPhoneExample | src/services/utils.test.ts:38 | `11999999999` formats as `(11) 99999-9999` |
| UtilsExamples.FormatShortPhoneExample | src/services/utils.test.ts:42 | `1199999999` formats as `(11) 9999-9999` |
| UtilsExamples.FormatCepExample | src/services/utils.test.ts:61 | `01310100` formats as `01310-100` |
| UtilsExamples.FormatCepUnchangedExamples | src/services/utils.test.ts:65-66 | `123` and `123456789` come back unchanged |
| UtilsExamples.FormatDateExample | src/services/utils.test.ts:80 | `1990-05-15` displays as `15/05/1990` |
| UtilsExamples.FormatDateUnchangedExamples | src/services/utils.test.ts:83-89 | `""` and `invalid` come back unchanged |
| UtilsExamples.ParseDateExample | src/services/utils.test.ts:94 | `15/05/1990` parses to `1990-05-15` |
| UtilsExamples.ParseDatePadsExample | src/services/utils.test.ts:102 | `5/5/1990` parses to `1990-05-05` |
| UtilsExamples.ValidEmailExample | src/services/utils.test.ts:134 | `test@example.com` is accepted |
| UtilsExamples.InvalidEmailExamples | src/services/utils.test.ts:139-146 | `invalid-email`, `test@`, `@domain.com`, `test.domain.com` and `""` are rejected |
| UtilsExamples.OnlyNumbersExample | src/services/utils.test.ts:152 | `123abc456` strips to `123456` |
| UtilsExamples.CapitalizeExample | src/services/utils.test.ts:173 | `MARIA SANTOS` becomes `Maria Santos` |
| UtilsExamples.CapitalizeDoubleSpaceExample | src/services/utils.test.ts:186 | `joão  silva` becomes `João  Silva`, keeping both spaces |
| UtilsExamples.TruncateExamples | src/services/utils.test.ts:192-209 | the five truncation cases of the tests |
| UserModel.IdCounterOfMakeId | src/services/userService.ts:31-33 | the counter can be read back from every id `user_<counter>_<time>` |
| UserModel.MakeIdInjective | src/services/userService.ts:31-33 | ids made from different counters differ, whatever the clock says |
| UserModel.NewUserSpec | src/services/userService.ts:41-56 | the new record has the given id, the two clock readings as `createdAt` and `updatedAt`, and every field and address sub-field as supplied; a missing street, neighborhood, city, state or uf becomes `""` |
| UserModel.MergeAddressSpec | src/services/userService.ts:124-127 | each of the eight address sub-fields takes the patch's value when supplied and keeps the old one otherwise |
| UserModel.MergeSpec | src/services/userService.ts:120-131 | id and creation time are kept and `updatedAt` is refreshed; each of name, e-mail, phone, CPF and birth date takes the supplied value or stays; without an address the old one is kept whole, with one it is merged sub-field by sub-field |
| UserModel.MergeOnlyCity | src/services/userService.ts:124-129 | an update carrying only a city changes the city and `updatedAt` and nothing else |
| UserModel.MergeIdempotent | src/services/userService.ts:120-131 | applying the same update twice equals applying it once |
| UserStore.IdsOrderedDistinct | src/services/userService.ts:31-33 | the store invariant implies that no two records share an id |
| UserStore.IdsOrderedRemove | src/services/userService.ts:149 | removing a record keeps the store invariant |
| UserStore.FindIndex | src/services/userService.ts:114 | `findIndex` on the id returns the first position holding it, or -1 exactly when no record holds it |
| UserStore.FindIndexUnique | src/services/userService.ts:114-143 | with distinct ids, the position found is the only one holding the id |
| UserStore.FilterMatchingMembers | src/services/userService.ts:83-89 | filtering keeps exactly the records whose lower-cased name or e-mail, or whose stored cpf or phone, contains the term |
| UserStore.FilterMatchingAppend | src/services/userService.ts:83-89 | filtering works piece by piece, so it keeps the stored order |
| UserStore.FilterMatchingAll | src/services/userService.ts:83-89 | when every record matches, filtering returns the list unchanged |
| UserStore.SearchUsersSpec | src/services/userService.ts:78-90 | an empty or blank search keeps every record in order; any other search keeps exactly the records matching the lower-cased, trimmed term |
| UserStore.CeilDiv | src/services/userService.ts:94 | `Math.ceil(total/limit)`: the least page count whose pages hold `total` |
| UserStore.JsIndex | src/services/userService.ts:97 | slice's index normalisation stays within the length and leaves an in-range index alone |
| UserStore.WindowContents | src/services/userService.ts:95-97 | `slice(start, start + limit)` holds `min(limit, max(0, n - start))` records, the ones from `start` on |
| UserStore.PaginateTotals | src/services/userService.ts:93-105 | `total` is the filtered count; page and limit are echoed back; `totalPages` is that ceiling |
| UserStore.PaginateSpec | src/services/userService.ts:95-100 | for page ≥ 1, `data` holds `min(limit, max(0, total - (page-1)·limit))` records, those from `(page-1)·limit` on, in order |
| UserStore.PaginateFrom | src/services/userService.ts:95-100 | the previous row with the page start given a name |
| UserStore.PaginatePageZero | src/services/userService.ts:95-97 | page 0 is always empty: its window ends at index 0 |
| UserStore.EmailInUseStored | src/services/userService.ts:162-166 | a stored e-mail, in any casing, is in use; it is not in use when its own record is excluded and no other record has it |
| UserStore.CpfInUseStored | src/services/userService.ts:178-180 | a stored CPF is in use; it is not in use when its own record is excluded and no other record has it |
| UserStore.EmailInUseIgnoresCase | src/services/userService.ts:164 | upper-casing an e-mail does not change the outcome of the check |
| UserStore.CountByStateSpec | src/services/userService.ts:200-204 | each state's count equals the number of records in that state; the keys are the states `DistinctUfs` lists, each listed once |
| UserStore.DistinctUfsSpec | src/services/userService.ts:200-204 | the states `DistinctUfs` lists are exactly the `uf`s of the stored records |
| UserStore.SumCountsAppend | src/services/userService.ts:203 | summing counts over one more key adds that key's count |
| UserStore.SumCountsBump | src/services/userService.ts:203 | bumping one key's count raises the sum over distinct keys by one if the key is among them |
| UserStore.ByStateSumsToTotal | src/services/userService.ts:193-210 | the per-state counts add up to `total` |
| UserStore.UserService.constructor | src/services/userService.ts:11-12 | an empty store whose counter starts at 1 |
| UserStore.UserService.GenerateId | src/services/userService.ts:31-33 | returns `user_<counter>_<now>` and advances the counter; the records are unchanged |
| UserStore.UserService.CreateUser | src/services/userService.ts:38-60 | appends exactly the new record with the next id; earlier records are unchanged; the counter advances; the invariant is kept |
| UserStore.UserService.GetUserById | src/services/userService.ts:65-68 | no result exactly when no record has the id; otherwise the first record holding it |
| UserStore.UserService.GetUsers | src/services/userService.ts:73-106 | the response is the page of the searched list, computed without changing the store |
| UserStore.UserService.UpdateUser | src/services/userService.ts:111-135 | an unknown id fails with `Usuário não encontrado` and changes nothing; a known id gets the merged record at the same index, with every other record and the counter unchanged |
| UserStore.UserService.DeleteUser | src/services/userService.ts:140-151 | an unknown id fails and changes nothing; a known id has its record cut out, the rest kept in order, and no record with that id left |
| UserStore.UserService.IsEmailInUse | src/services/userService.ts:156-167 | true exactly when some record other than the excluded one has the e-mail, ignoring case |
| UserStore.UserService.IsCpfInUse | src/services/userService.ts:172-181 | true exactly when some record other than the excluded one has that exact CPF |
| UserStore.UserService.GetUserStats | src/services/userService.ts:186-216 | the loop computes the record count, the per-state counts and the number of records `isRecent` accepts |
| UserStore.UserService.ClearAllUsers | src/services/userService.ts:221-224 | the store is empty and the counter is back at 1 |
| UserContext.InitialStateSpec | src/context/UserContext.tsx:36-52 | no users, not loading, no error, modal closed in `create` mode, filter `{"", 1, 10}`, totals 0 |
| UserContext.ReduceListSpec | src/context/UserContext.tsx:56-68 | SET_USERS replaces the list; ADD_USER appends one record at the end and keeps the rest; both clear the error |
| UserContext.ReduceUpdateSpec | src/context/UserContext.tsx:70-77 | UPDATE_USER keeps length and order, puts the payload wherever its id is and leaves the others alone; it clears the error; with no matching id the list is unchanged |
| UserContext.ReplaceByIdSingle | src/context/UserContext.tsx:73-75 | with distinct ids, UPDATE_USER writes exactly the one index that holds the id |
| UserContext.RemoveByIdMembers | src/context/UserContext.tsx:82 | DELETE_USER keeps exactly the records with another id, and never lengthens the list |
| UserContext.RemoveByIdAppend | src/context/UserContext.tsx:82 | DELETE_USER works piece by piece, so the remaining records keep their order |
| UserContext.RemoveByIdAbsent | src/context/UserContext.tsx:82 | deleting an id no record holds changes nothing |
| UserContext.RemoveByIdSplit | src/context/UserContext.tsx:82 | deleting the id of the only record holding it cuts out just that record |
| UserContext.RemoveByIdAt | src/context/UserContext.tsx:82 | when only index `k` holds its id, DELETE_USER cuts out index `k` |
| UserContext.RemoveByIdSingle | src/context/UserContext.tsx:79-84 | with distinct ids, DELETE_USER cuts out exactly the record the store's splice removes |
| UserContext.ReduceDeleteSpec | src/context/UserContext.tsx:79-84 | after DELETE_USER the list holds exactly the old records with another id, and the error is cleared |
| UserContext.ReduceFlagsSpec | src/context/UserContext.tsx:86-98 | SET_LOADING(true) clears the error; SET_LOADING(false) keeps it; SET_ERROR sets the error and turns loading off |
| UserContext.ReduceModalSpec | src/context/UserContext.tsx:100-118 | OPEN_MODAL opens with the given mode and record; CLOSE_MODAL resets to closed `create` with no record; closing after opening restores the closed modal |
| UserContext.ReduceFilterSpec | src/context/UserContext.tsx:120-134 | SET_FILTER takes each supplied key and keeps each missing one; a merge that changes nothing returns the same state; an empty patch is a no-op |
| UserContext.ReduceFrame | src/context/UserContext.tsx:54-146 | each action changes only its own part of the state; SET_PAGINATION changes just the two totals; an unknown action returns the state unchanged |
| Forms.InitialValuesFailRequired | src/interfaces/Forms.ts:74-88 | the empty initial form fails every required rule and passes the optional complement rule, so it is not valid |
| Forms.CpfRuleIsLayout | src/interfaces/Forms.ts:33-35 | the cpf pattern accepts exactly the layout `formatCpf` produces, with no check-digit test |
| Forms.CepRuleIsLayout | src/interfaces/Forms.ts:41-43 | the cep pattern accepts exactly the layout `formatCep` produces |
| Forms.PhoneLayoutFitsRule | src/interfaces/Forms.ts:29-31 | both phone layouts fit the phone pattern |
| Forms.FormatCpfPassesRule | src/interfaces/Forms.ts:35 | eleven digits, once formatted, pass the cpf rule |
| Forms.FormatPhonePassesRule | src/interfaces/Forms.ts:31 | ten or eleven digits, once formatted, pass the phone rule |
| Forms.FormatCepPassesRule | src/interfaces/Forms.ts:43 | eight digits, once formatted, pass the cep rule |
| Forms.BirthDateRoundTrip | src/interfaces/Forms.ts:37-39 | a birth date the form accepts survives display and re-entry: `parseDate(formatDate(d)) == d` |
| ViaCep.FormatCepAgrees | src/services/viaCepService.ts:113-119 | the service's `formatCep` agrees with the library's on every input |
| ViaCep.FormatCepSpec | src/services/viaCepService.ts:113-119 | valid codes become `ddddd-ddd` with the same digits; invalid ones are returned unchanged |
| ViaCep.FormatCepKeepsValidity | src/services/viaCepService.ts:103-119 | formatting does not change whether a code is valid |
| ViaCep.ValidateCepLayout | src/services/viaCepService.ts:103-119 | every code in `ddddd-ddd` layout is valid and formats to itself |
| ViaCep.GetAddressByCepSpec | src/services/viaCepService.ts:21-36 | a code without eight digits gets `INVALID_CEP_FORMAT`, with no data and no loading, before any lookup; a valid code is looked up by `onlyNumbers` of the code itself, eight digits; formatting the code first makes no difference |
| UseUsers.UpdateSearchSpec | src/hooks/useUsers.ts:264-269 | a new search resets to page 1 and keeps the limit |
| UseUsers.UpdatePageSpec | src/hooks/useUsers.ts:271-276 | changing the page changes only the page |
| UseUsers.UpdateLimitSpec | src/hooks/useUsers.ts:278-283 | a new limit resets to page 1 and keeps the search |
| UseUsers.ResetFilterSpec | src/hooks/useUsers.ts:285-287 | resetting yields the filter `{"", 1, 10}`, and only the filter changes |
| UseUsers.BeginAsWrittenIsNotLoading | src/hooks/useUsers.ts:14-15 | as written, the two opening dispatches leave loading off |
| UseUsers.Begin | src/hooks/useUsers.ts:14-15 | the intended opening: error cleared and loading on |
| UseUsers.BeginAgreesAtEnd | src/hooks/useUsers.ts:28-30 | the written and intended openings differ only in the loading flag, so after the closing `setLoading(false)` they end in the same state |
| UseUsers.ReduceAllIgnoresLoading | src/context/UserContext.tsx:54-146 | actions other than SET_LOADING never read the loading flag |
| UseUsers.Fail | src/hooks/useUsers.ts:98-106 | the catch and finally branches record the message and turn loading off |
| UseUsers.LoadUsers | src/hooks/useUsers.ts:12-31 | starting with the two opening dispatches as written, asks the store for the filter's page, then stores its records and totals; the error is cleared and loading is off |
| UseUsers.CreateUser | src/hooks/useUsers.ts:75-109 | a taken e-mail (ignoring case), then a taken CPF, fails with its message and leaves the store alone; otherwise the new record is stored, appended on screen, and the modal closed |
| UseUsers.EditUser | src/hooks/useUsers.ts:111-157 | a supplied e-mail, then a supplied CPF, is checked against the other records only; a failure leaves the store alone and records the message; success writes the merged record to store and screen and closes the modal |
| UseUsers.RemoveUser | src/hooks/useUsers.ts:159-180 | an unknown id records `Usuário não encontrado` and leaves both lists alone; otherwise the record leaves the store and the screen |
| UseUsers.CreatedEmailIsTaken | src/hooks/useUsers.ts:81-85 | once a record is created, its e-mail in any casing is refused by the next creation |
| UseUsers.CreatedCpfIsTaken | src/hooks/useUsers.ts:87-91 | once a record is created, its CPF is refused by the next creation |
| UseUsers.OwnEmailPasses | src/hooks/useUsers.ts:118-128 | an edit keeping the record's own e-mail passes when no other record has it |
| UseUsers.OwnCpfPasses | src/hooks/useUsers.ts:131-139 | an edit keeping the record's own CPF passes when no other record has it |
| UseUsers.ScreenFollowsStore | src/hooks/useUsers.ts:141-166 | with distinct ids, the screen's UPDATE_USER and DELETE_USER make the same change to the list as the store's index write and splice |

## Left out

- `debounce` (`src/services/utils.ts:153-163`): it depends on the timer queue.
- The simulated latency (`simulateDelay`) and the asynchrony of every service method: the methods are synchronous.
- Clock reads are parameters: `now` for `Date.now()`, and `stamp`, `created` and `updated` for `new Date().toISOString()`. `createUser` reads the clock once for `createdAt` and again for `updatedAt`, so the two are separate parameters.
- `recentlyAdded` is counted with an `isRecent` predicate on `createdAt`; the seven-day calendar arithmetic is not modelled.
- The singleton `getInstance` and `seedSampleUsers` (which goes through the global instance): the store is an explicitly constructed object.
- The network part of `getAddressByCep`: the axios request, the not-found answer, error classification and `navigator.onLine`. The lookup of eight bare digits is the parameter `lookup`.
- The form library's own e-mail test is a parameter `isEmail` of the e-mail rule. `required`, `min`, `max`, `length`, `matches` and `uppercase` are plain predicates; `uppercase` is read as "equal to its upper-cased form".
- `Utils.TruncateText` and the length rules of `Forms` (`NameRule`, `StreetRule`, `ComplementRule`, `UfRule` and the others): lengths count Unicode characters. JavaScript's `length`, `slice` and the schema's `min`/`max`/`length` count UTF-16 code units, so text with characters outside the Basic Multilingual Plane (emoji, say) can differ. For example `truncateText("😀😀", 3)` gives `"..."` in JavaScript but the text itself here. A model over UTF-16 code units would need an encoder, which the project does not have.
- Case mapping covers ASCII letters only: `toLowerCase`/`toUpperCase` leave every other character unchanged, so `ã` keeps its case. This affects search, the e-mail checks and `capitalizeWords`.
- React plumbing (`UserProvider`, `useUserContext`, `useCallback` dependency lists) and every component, story and test file. The test files serve only as the source of the concrete cases.
- `loadInitialUsers` and `refreshUsers` are `loadUsers` with the fixed filter `{1, 10, ""}` and a re-call, so they are not modelled separately.
- `useViaCep` and `useModal` only forward to `ViaCep` and to the modal actions, so they are not modelled separately.
- `UserStore.UserService.GetUsers`, `UserStore.Paginate` and `UseUsers.LoadUsers` require `limit >= 1`. With limit 0 the page count would be `Infinity` or `NaN`, which the integer model has no value for. Page numbers are integers; a negative start follows `slice`'s rule of counting from the end.
- Optional fields are `Option` values. A key present with the value `undefined` is treated as absent in the spreads of `updateUser` and SET_FILTER.
- `UserContext.Reduce`: SET_FILTER compares the filters by value. The source compares `JSON.stringify` texts, which agrees with value equality for the string and number fields of a filter.
- `UseUsers.CreateUser`, `UseUsers.EditUser`, `UseUsers.RemoveUser`: the fallback messages for a thrown value that is not an `Error` never arise, because every failure here carries a message.
- `UseUsers.LoadUsers`, `UseUsers.CreateUser`, `UseUsers.EditUser`, `UseUsers.RemoveUser`: the contracts state only the final state. They do not describe the states in between, in which the loading flag is off while the work runs (see Findings).
- `UseUsers.LoadUsers`: the `catch` branch of `loadUsers` is not modelled, because the store's `getUsers` cannot fail once `limit >= 1`.
- `Utils.ParseDate` requires the empty string or at least two `/`-parts. With fewer, `month.padStart` throws a type error. With exactly two parts the year prints as `undefined`, as the template literal does.
- `UserModel.IdCounter` reads the counter back from an id. The timestamp part is not parsed.

## Findings

| source | as written | input that shows it | evidently intended | confidence | as-written member | corrected member |
|---|---|---|---|---|---|---|
| src/hooks/useUsers.ts:14-15 (also 35-36, 78-79, 114-115, 162-163) with src/context/UserContext.tsx:93-98 | each operation dispatches `setLoading(true)` and then `setError(null)`; SET_ERROR also forces `loading` to false, so the loading flag is off again before any work starts | any call of `loadUsers`, `createUser`, `editUser` or `removeUser`: the state after the two opening dispatches has `loading == false` | the operation runs with loading on and the error cleared (clear the error first, or have SET_LOADING(true) alone do both, as it already clears the error) | not executed | UseUsers.BeginAsWritten (shown by UseUsers.BeginAsWrittenIsNotLoading) | UseUsers.Begin (with UseUsers.BeginAgreesAtEnd: both end in the same state after `finally`) |

`UseUsers.LoadUsers`, `UseUsers.CreateUser`, `UseUsers.EditUser` and `UseUsers.RemoveUser` begin with `BeginAsWritten`, as the code does. Their contracts give only the final state, after the `finally` branch's `setLoading(false)`. `UseUsers.BeginAgreesAtEnd` shows that the corrected `Begin` leads to that same final state, so the two openings differ only while the work is running.
