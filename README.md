# CSR clinic backend: user lookup, journals and patient intake

A Dafny model of the rules inside `server.js` of the CSR clinic backend. This
is the server that the front desk ("Caisse") and the clinical services log
into. It keeps a patient ledger (`labo.json`) and one journal file per
clinical service. Once files, clocks and transport are abstracted away, these
rules remain:

- **Credential lookup** (`verifyCredentials`). A first-match search over the
  in-memory user table on exact username, exact password and
  `isActive === true`. It returns a profile without the password. A `null`
  entry reached before a match makes `Array.find` throw.
- **User table loading** (`loadUsersDatabase`, `FORCE_INITIALIZE_USERS`). The
  file's table is kept only when it is a non-empty array. On every other path
  the eight default accounts are written to the file and installed.
- **Journal append** (`add_to_journal`). A closed dispatch from eight service
  names to journal files. The journal is loaded, with a missing, blank or
  malformed file read as `[]`. The new entry, whose `id`, `timestamp` and
  `journalType` are set by the server, goes first.
- **Patient registration** (`labo`). One record is appended to the end of the
  ledger. Then one `add_to_journal` request is emitted back to the client for
  each selected service, in order.
- **Test journal write** (`/api/test-journal`). A second dispatch that sends
  any unknown type to the laboratory journal, then puts a test entry first.

Modules:

- `Json` (json.dfy): JSON values, `undefined` as `None`, truthiness, `||`,
  `===` and object spread.
- `Store` (store.dfy): what reading a file can give, and the list a handler
  then works on.
- `Auth` (auth.dfy): `verifyCredentials`, the default accounts and the
  fallback decision of `loadUsersDatabase`.
- `Journal` (journal.dfy): both dispatches, the stored entries and
  newest-first insertion.
- `Intake` (intake.dfy): the ledger record, service iteration and the fan-out
  loop.
- `Server` (server.dfy): class `CsrServer`. It holds the user table, the users
  file, the ledger and the journal files. Its handlers are methods that
  rewrite them.

What the code does not do, and the model therefore does not either:

- Journals are never truncated: every write keeps all earlier entries.
- No client number or counter is allocated, and patients are not matched
  against earlier registrations: each `labo` call appends a new record.
- No lock guards a file between its read and its write.
- `labo` sends its journal requests to the registering client
  (`socket.emit`); the server does not write them to the journals.

## Model

| member | source | states |
|---|---|---|
| `Auth.Verify` | server.js:191-218 | An empty table gives `null`. The result is `null` exactly when every entry is non-null and fails the match. A profile is returned only for the first matching entry (exact username, exact password, `isActive` exactly `true`), and every entry before it is non-null and does not match. A TypeError is raised only at a `null` entry that comes before any match. |
| `Auth.VerifyDecidedByFirstStop` | server.js:199-203 | Once a table yields a profile or a TypeError, appending more users never changes the result, so later duplicates of a username are shadowed. |
| `Auth.LoginProfile` | server.js:205-213 | A successful login returns the requested username. `fullName` is truthy or equals that username. `permissions` is always present and truthy: either the user's own value or `[]`. |
| `Auth.ProjectHidesPassword` | server.js:207-213 | The returned profile does not depend on the stored password, so changing the password alone leaves the profile unchanged. |
| `Auth.InactiveNeverLogsIn` | server.js:199-203 | A table with no entry whose `isActive` is exactly `true` never authenticates anyone. |
| `Auth.DefaultUsernamesDistinct` | server.js:41-114 | The eight default accounts have pairwise distinct usernames. |
| `Auth.AccountLogsIn` | server.js:199-213 | In any table of accounts written the way the defaults are, an account whose username no earlier account uses logs in with that username and `12345678`, and gets its own profile back. |
| `Auth.DefaultUsersLogIn` | server.js:41-114 | Every default account logs in with its own username and `12345678`, and gets its own profile back. |
| `Auth.DefaultUsersRejectOtherPasswords` | server.js:41-114 | Against the default table, every password other than the string `12345678` gives `null`, whatever the username: a missing password, a number or any other string. |
| `Auth.LoadedUsers` | server.js:143-185 | The table that loading settles on is never empty. It is the file's own array when that array is non-empty. Otherwise (missing, unreadable, blank, unparsable, non-array or empty file) it is the eight default accounts. |
| `Store.AsList` | server.js:305-312 | A missing, blank or malformed file counts as `[]`, and a parsed array as itself. Only a parsed non-array yields no list, and then `unshift`/`push` throws. |
| `Journal.KindOf` | server.js:293-303 | A journal is selected exactly when the type is the string name of one of the eight services, and then it is that service's journal. Any other value, including a non-string or a missing type, selects none. |
| `Journal.FileNamesDistinct` | server.js:24-31 | Distinct journals are stored in distinct files. |
| `Journal.TestKind` | server.js:491-497 | `consultation` and `caisse` select their own journals. Every other type, any non-string included, selects the laboratory journal. |
| `Journal.TestType` | server.js:488-489 | A falsy or missing type becomes `laboratoire`, and a truthy one is kept as given. |
| `Journal.TestKindAgreesWithKindOf` | server.js:491-497 | For `laboratoire`, `consultation` and `caisse` the test route picks the same journal as `add_to_journal`. For the other five services it writes to the laboratory journal. |
| `Journal.Decimal` | server.js:317 | The digits written after `JRN_` are decimal digits that denote exactly the clock value in milliseconds. |
| `Journal.NewEntry` | server.js:315-320 | The stored entry has the caller's keys plus `id`, `timestamp` and `journalType`. `id` is `JRN_<ms>`, `timestamp` is the clock value and `journalType` is the selected journal's name, even when the caller's entry carried those keys. Every other key keeps the caller's value. |
| `Journal.PrependAllKeepsEverything` | server.js:322 | After any number of appends to one journal, the new entries come first, newest first, followed by the previous journal unchanged. Nothing is evicted and the length grows by exactly the number of appends. |
| `Journal.PrependAllStep` | server.js:322 | One more `unshift` after a run of writes puts the new entry in front of the journal those writes left, so the handler's single step `[entry] + list` chains into the run described by `PrependAllKeepsEverything`. |
| `Intake.LedgerRecord` | server.js:361-364 | The ledger record carries every patient field plus `dateCreation`. `dateCreation` is the clock value, even when the patient data had that key. |
| `Intake.SelectedServices` | server.js:369-370 | A missing or falsy selection means no services, and an array means its elements in order. A string means its characters. Any other truthy value is not iterable, so the loop throws. |
| `Intake.ServiceName` | server.js:371 | For an object service the name is its `value` property. For an array it is undefined. For a primitive it is the service itself. |
| `Intake.ServiceEntry` | server.js:375-380 | The entry keeps every patient field other than `service`, `patientName` and `patientId`, and has no other keys. `service` is the service name, present exactly when the name is defined. `patientName` is `nomClient`, present exactly when the patient has one, and `patientId` likewise is `numID_CSR`. |
| `Intake.Request` | server.js:373-381 | The emitted request's `journalType` is the service name and its entry is the object `ServiceEntry` describes for that name. |
| `Intake.Emitted` | server.js:370-382 | One request per service, in selection order, each built from that service. The requests stop exactly at the first `null` service, and with no services there are none. |
| `Intake.FanOut` | server.js:370-382 | The loop emits exactly the requests `Emitted` describes. It completes exactly when no selected service is `null`. |
| `Intake.EmittedAll` | server.js:370-382 | Without a `null` service, the number of requests equals the number of selected services. |
| `Intake.EmittedRequestsReachTheirJournal` | server.js:371-374 | An emitted request is accepted by `add_to_journal` for journal `k` exactly when its service name is `k`'s name. |
| `Server.CsrServer.constructor` | server.js:141 | The server starts with an empty user table and the files as found. |
| `Server.CsrServer.ForceInitializeUsers` | server.js:38-135 | A successful write installs the eight default accounts and writes them to the users file. A failed write changes nothing. |
| `Server.CsrServer.LoadUsersDatabase` | server.js:143-185 | Loading fails only when the file holds no usable table and the defaults cannot be written. On success the table is `LoadedUsers` of the old file, so it is non-empty. The users file is rewritten exactly when the defaults were used. Ledger and journals are untouched. |
| `Server.CsrServer.AddToJournal` | server.js:287-345 | An unknown type fails and changes nothing. A journal that parses to a non-array fails, and so does a failed write; neither changes anything. Otherwise only the selected journal changes: it becomes the new entry followed by the old list. The user table, users file and ledger are untouched. |
| `Server.CsrServer.RegisterPatient` | server.js:348-400 | A non-array ledger or a failed write fails with nothing written and nothing emitted. Otherwise the ledger becomes the old list plus one record at the end. A non-iterable selection then fails with nothing emitted. Otherwise the requests are exactly `Emitted`, and the handler fails exactly when a `null` service was selected, after the ledger write. Journals are untouched. |
| `Server.CsrServer.TestJournal` | server.js:486-535 | Only the journal that `TestKind` selects changes: it becomes a test entry followed by the old list. The route reports that journal's file name and the new length. A non-array journal or a failed write fails and changes nothing. |

## Left out

- Express routing, CORS, Socket.IO wiring, acknowledgement callbacks and their message texts, `http.listen` and `process.exit` are not modelled. They are transport with no stateable behaviour. The handlers return an `Outcome` instead.
- File contents, `JSON.parse`, `JSON.stringify`, `trim` and `mkdirSync` are not modelled. A read is the abstract `Store.Stored` result, and a successful write stores the list as a parsed array, so serialisation is taken as an exact round trip. A missing file and an unreadable one are both `Absent`, because every handler treats them the same.
- Write failures are one boolean parameter per call. In `Server.CsrServer.LoadUsersDatabase` both attempts to write the defaults share that outcome.
- Clock reads (`Date.now()`, `toISOString()`) are parameters. Entry ids `JRN_<ms>` are not unique, and the model does not claim they are.
- Concurrency between overlapping handlers is not modelled. Each handler runs as one sequential step, so the racy read-modify-write of a file is not captured.
- Logging, the `/`, `/api/users-status`, `/api/test-auth` and `/api/emergency/reset-users` routes, and the strength of plaintext passwords are left out. The last two routes only call the modelled `Auth.Verify` and `Server.CsrServer.ForceInitializeUsers`.
- Server.CsrServer.LoadUsersDatabase: when the file parses to a non-array and the defaults cannot be written, the source leaves that non-array value installed before the process exits. The model keeps the previous table, because the table is typed as a list.
- Journal.NewEntry: a caller entry that is a string or an array would spread index-keyed properties. The model spreads nothing for it, because clients send objects.
- Server.CsrServer.RegisterPatient: the patient payload is an object. A `null` payload throws outside the handler's `try` and is not modelled.
- JSON numbers are treated as exact reals, while JavaScript numbers are IEEE doubles. Rounding in the `===` comparisons of the credential lookup is therefore not captured. NaN cannot come out of JSON and is not modelled, and neither are inherited properties such as `__proto__`.
- Server.CsrServer.AddToJournal: a `null` request payload throws when its `journalType` is read for logging, outside the handler's `try`, and no acknowledgement is sent. The request is typed as a record, so this case is not modelled.
- Server.CsrServer.ForceInitializeUsers: a failed write is modelled as leaving the file as it was. `fs.writeFile` truncates the file before writing, so a write that fails part-way can leave it blank or partial, and the next read then treats it as `[]` or as malformed. The same holds for the failed writes of `Server.CsrServer.AddToJournal`, `Server.CsrServer.RegisterPatient` and `Server.CsrServer.TestJournal`.
