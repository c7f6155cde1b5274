# api-users, modelled in Dafny

The application is a single React page. `ApiUsers` loads a list of users from a
REST endpoint once, on mount, and renders a loading message, an error message
or a table. `AddUserForm` is a modal form. It keeps a draft record, updates one
field per change event, and on submit hands a normalised record to its parent
through `onAddUser` and then calls `onClose`.

This project models both components. Each is a class holding the state the
component keeps in `useState`, and its handlers are methods. The pure parts are
functions: the skills normaliser, the status label, the row mapping and the
choice of view. Lemmas relate those functions to each other.

In the code shown, nothing renders `AddUserForm` or handles its `onAddUser`:
`ApiUsers` neither imports the form nor adds submitted records to its list.
The skills round trip below is therefore a property of the two functions (the
form's parser and the table's join), not of any data flow in this code.

- `js_string.dfy`, module `JsString`: the JavaScript built-ins the components
  call. These are `split` with a one-character separator, `trim` (with the
  ECMAScript whitespace and line-terminator set) and `join`. Split and join are
  proved inverse to each other. `trim` is proved equal to an independent
  description of it: the middle of whitespace + trimmed text + whitespace.
- `add_user_form.dfy`, module `AddUserForm`:
  - the draft and its defaults;
  - `handleChange` as `Changed`, proved to touch only the named field;
  - the skills pipeline `split(',').map(trim).filter(non-empty)` as `ParseSkills`;
  - the submitted record;
  - class `Form`, whose `calls` field records the callback calls in order.
- `api_users.dfy`, module `ApiUsers`:
  - the page state `users`/`loading`/`error`;
  - the two halves of `fetchUsers` as functions (before and after the `await`);
  - class `UserList`, whose `FetchUsers` method performs them;
  - `Render`, which picks the view and maps users to rows;
  - the round trip between the table's `skills.join(', ')` and the form's parser.

Clock readings and the result of the awaited `getUsers()` are parameters. A
clock reading is an ISO timestamp string. The fetch result is `Fetched(users)`
or `FetchFailed`.

The page and the form do less than a full user-management screen would. What
the code has and lacks:
- The form has no birthday input. The draft's birthday is only ever the default
  date, and submit replaces it with the current timestamp.
- The page keeps only `users`, `loading` and `error`. It has no locally added
  users, no deletion, no identifier assignment, no active-only filter and no
  origin label, and the load runs once.
- Starting a load sets `loading` and nothing else. It does not clear `error`.
  Only a successful load clears it.

## Model

| member | source | states |
|---|---|---|
| `JsString.WhitespaceChars` | src/components/AddUserForm.tsx:45 | `IsWhitespace`, the characters `trim()` strips: the ECMAScript WhiteSpace and LineTerminator set, which holds space, tab, CR and LF but no comma, `T`, letter or digit |
| `JsString.Join` | src/ApiUsers.tsx:66 | `join(sep)` of no pieces is `""`, of one piece is that piece, and otherwise starts with the first piece |
| `JsString.JoinCons` | src/ApiUsers.tsx:66 | with two or more pieces, `join(sep)` is the first piece, then `sep`, then the join of the remaining pieces; with `Join`'s own clauses this fixes every character of the result |
| `JsString.JoinAppend` | src/ApiUsers.tsx:66 | the join of two non-empty runs of pieces is the join of the first run, `sep`, and the join of the second run |
| `JsString.Split` | src/components/AddUserForm.tsx:45 | `split(',')` gives at least one piece, and no piece contains the separator |
| `JsString.JoinSplit` | src/components/AddUserForm.tsx:45 | joining the pieces of a split with the separator restores the input |
| `JsString.SplitJoin` | src/components/AddUserForm.tsx:45 | splitting the join of separator-free pieces gives those pieces back |
| `JsString.SplitAfterPlainPrefix` | src/components/AddUserForm.tsx:45 | separator-free text in front of a string joins onto the first piece, and the other pieces are unchanged |
| `JsString.FirstPiece` | src/components/AddUserForm.tsx:29 | `split('T')[0]` is a prefix of the input with no `T`, and the input has a `T` right after it (when the input is longer) |
| `JsString.LeadingBlanks` | src/components/AddUserForm.tsx:45 | counts exactly the whitespace that opens the string |
| `JsString.ContentEnd` | src/components/AddUserForm.tsx:45 | marks where the trailing whitespace run starts |
| `JsString.Trim` | src/components/AddUserForm.tsx:45 | `trim()` leaves no whitespace at either end |
| `JsString.TrimKeepsOut` | src/components/AddUserForm.tsx:45 | trimming never adds a character, so a comma-free piece stays comma-free |
| `JsString.LeadingBlanksUnique` | src/components/AddUserForm.tsx:45 | the leading whitespace run is determined by where the first non-blank character sits |
| `JsString.ContentEndUnique` | src/components/AddUserForm.tsx:45 | the trailing whitespace run is determined by where the last non-blank character sits |
| `JsString.TrimCharacterized` | src/components/AddUserForm.tsx:45 | for any split of a string into whitespace, a trimmed middle and whitespace, `trim()` returns that middle |
| `JsString.TrimTrimmed` | src/components/AddUserForm.tsx:45 | `trim()` leaves a string with no whitespace at either end unchanged |
| `JsString.TrimAfterBlank` | src/components/AddUserForm.tsx:45 | putting a blank in front of a string does not change its trim |
| `AddUserForm.DatePart` | src/components/AddUserForm.tsx:29 | the default birthday is the part of the ISO clock reading before `T` |
| `AddUserForm.InitialDraft` | src/components/AddUserForm.tsx:24-31 | the default draft has empty names, email and skills, `status` true, and as birthday exactly `DatePart` of the clock reading (the current UTC date, since `toISOString()` is in UTC; near midnight it can differ from the local date) |
| `AddUserForm.InputType` | src/components/AddUserForm.tsx:74-129 | the `type` attributes of the inputs: `status` is the only checkbox and `email` the only email input |
| `AddUserForm.Field` | src/components/AddUserForm.tsx:37 | `formData[name]`: a boolean exactly for the checkbox input (holding `status`), text for every other input |
| `AddUserForm.Changed` | src/components/AddUserForm.tsx:33-38 | the named field takes `checked` for the checkbox and `value` otherwise; every other field and the birthday stay unchanged |
| `AddUserForm.DraftExtensionality` | src/components/AddUserForm.tsx:24-31 | two drafts that agree on every input field and on the birthday are equal |
| `AddUserForm.ChangesCommute` | src/components/AddUserForm.tsx:33-38 | changes to two different inputs give the same draft in either order |
| `AddUserForm.LastChangeWins` | src/components/AddUserForm.tsx:33-38 | a second change to the same input overrides the first |
| `AddUserForm.TrimAll` | src/components/AddUserForm.tsx:45 | `.map(trim)` keeps the length and trims each piece in place |
| `AddUserForm.DropEmpty` | src/components/AddUserForm.tsx:45 | `.filter(s => s !== '')` keeps exactly the non-empty entries and never lengthens the list |
| `AddUserForm.ParseSkills` | src/components/AddUserForm.tsx:45 | every parsed skill is non-empty, has no whitespace at either end and contains no comma |
| `AddUserForm.TrimAllConcat` | src/components/AddUserForm.tsx:45 | `.map(trim)` of a concatenation is the concatenation of the two maps |
| `AddUserForm.DropEmptyConcat` | src/components/AddUserForm.tsx:45 | the filter of a concatenation is the concatenation of the two filters, so input order is kept |
| `AddUserForm.ParseSkillsAfterBlank` | src/components/AddUserForm.tsx:45 | a blank in front of the raw text does not change the parsed skills |
| `AddUserForm.ParseSkillsPiece` | src/components/AddUserForm.tsx:45 | a comma-free piece before a comma adds its trimmed text, or nothing if that is empty, in front of the skills parsed from the rest |
| `AddUserForm.ParseSkillsLastPiece` | src/components/AddUserForm.tsx:45 | comma-free text parses to its trimmed text, or to nothing if that is empty |
| `AddUserForm.ParseSkillsCons` | src/components/AddUserForm.tsx:45 | a skill before a comma is kept unchanged in front of the skills parsed from the rest |
| `AddUserForm.ParseSkillsConsBlank` | src/components/AddUserForm.tsx:45 | a skill before `", "` is kept unchanged in front of the skills parsed from the rest |
| `AddUserForm.ParseSkillsSingle` | src/components/AddUserForm.tsx:45 | a single skill parses to itself |
| `AddUserForm.ParseSkillsBlankBetween` | src/components/AddUserForm.tsx:45 | `x, , y` parses to `[x, y]` for any two skills |
| `AddUserForm.ParseExampleMixed` | src/components/AddUserForm.tsx:45 | `"react, , typescript"` parses to `["react", "typescript"]` |
| `AddUserForm.ParseExampleEmpty` | src/components/AddUserForm.tsx:45 | `""` parses to no skills |
| `AddUserForm.ParseExampleBlanks` | src/components/AddUserForm.tsx:45 | `" , ,"` parses to no skills |
| `AddUserForm.Submitted` | src/components/AddUserForm.tsx:43-47 | the record for `onAddUser` copies the names, email and status from the draft, uses the current timestamp as birthday, and its skills are exactly `ParseSkills` of the draft's raw skills text, each one valid |
| `AddUserForm.SubmittedIgnoresBirthday` | src/components/AddUserForm.tsx:46 | the submitted record does not depend on the draft's birthday |
| `AddUserForm.Form.constructor` | src/components/AddUserForm.tsx:24-31 | a mounted form holds the default draft and has made no callback calls |
| `AddUserForm.Form.HandleChange` | src/components/AddUserForm.tsx:33-39 | the draft becomes `Changed(draft, event)` and no callback is called |
| `AddUserForm.Form.HandleSubmit` | src/components/AddUserForm.tsx:41-58 | `onAddUser` is called exactly once with the record built from the old draft, and then `onClose`; the draft is reset to its defaults |
| `AddUserForm.Form.Cancel` | src/components/AddUserForm.tsx:133 | "Cancelar" and the close button (line 68) only call `onClose`; the draft is left as it was |
| `ApiUsers.InitialState` | src/ApiUsers.tsx:19-21 | no users, not loading, empty error |
| `ApiUsers.LoadStarted` | src/ApiUsers.tsx:26 | starting a load sets `loading` and leaves `users` and `error` unchanged |
| `ApiUsers.LoadSettled` | src/ApiUsers.tsx:27-35 | on success `users` is exactly the fetched list and `error` is empty; on failure `error` is the fixed message and `users` is unchanged; `loading` is false either way |
| `ApiUsers.UserList.constructor` | src/ApiUsers.tsx:19-21 | the component starts in the initial state |
| `ApiUsers.UserList.FetchUsers` | src/ApiUsers.tsx:24-36 | the state passes through `LoadStarted` and ends at `LoadSettled` of it for the given fetch outcome |
| `ApiUsers.StatusLabel` | src/ApiUsers.tsx:65 | the label is `Activo` exactly when the status is true, and `Inactivo` exactly when it is false |
| `ApiUsers.RowOf` | src/ApiUsers.tsx:60-66 | a row shows the user's id, names and email, the status label and the skills joined with `", "` |
| `ApiUsers.Rows` | src/ApiUsers.tsx:59-67 | one row per user, in the users' order |
| `ApiUsers.Render` | src/ApiUsers.tsx:41-67 | the loading message exactly while loading; otherwise the error exactly when it is non-empty; otherwise the table of all users |
| `ApiUsers.RenderWhileLoading` | src/ApiUsers.tsx:41 | once a load has started, the page shows the loading message whatever state it was in |
| `ApiUsers.RenderAfterSuccess` | src/ApiUsers.tsx:28-29 | after a successful load the page is the table of exactly the fetched users |
| `ApiUsers.RenderAfterFailure` | src/ApiUsers.tsx:31 | after a failed load the page shows `Error al cargar los usuarios` |
| `ApiUsers.SkillsLabel` | src/ApiUsers.tsx:66 | the skills cell: `""` for no skills, the skill itself for one, and for more the first skill, `", "`, and the cell of the remaining skills |
| `ApiUsers.SkillsRoundTrip` | src/ApiUsers.tsx:66 | parsing the table's `", "`-joined skills with the form's parser gives back the same list of skills |
| `ApiUsers.SkillsRoundTripExactly` | src/ApiUsers.tsx:66 | that round trip holds exactly for lists whose every entry is non-empty, trimmed and comma-free |
| `ApiUsers.SubmittedSkillsRoundTrip` | src/ApiUsers.tsx:66 | any skills list the form's parser produces survives being shown as a table cell and parsed again (a property of the two functions; the code does not wire the form to the table) |

## Left out

- `src/components/helpers/getUsers.ts` (the `fetch` call, the `response.ok` check and JSON decoding) is not part of this model. Its result is the `FetchOutcome` parameter. A decoded payload is assumed to have the `User` shape, so the `users?.map` guard against a missing array is not modelled.
- `src/main.tsx` (mounting, and the error when the root element is missing) is not part of this model.
- JSX markup, styling, the `isOpen` early return, `preventDefault` and the browser's `required` / `type="email"` checks are page markup and browser behaviour. They are not modelled.
- Clock reads (`new Date().toISOString()`) are parameters holding the ISO text. The date format itself is not checked.
- React scheduling is not modelled: `useEffect` timing, batching of state updates, the second effect run in development `StrictMode`, and interleaving of the `await` with other events. A load is one fixed sequence of state updates. `FetchUsers` exposes the in-between state as a ghost result.
- `console.error` in the failure branch writes only to the log and is left out.
- `AddUserForm.Changed`: the change event's `type` comes from the input it fires on. The form's only checkbox is `status`, so an event whose `type` and `name` disagree, which the form cannot produce, is not modelled.
- `JsString.Split`: only the one-character separators the code uses (`','` and `'T'`) are covered.
- JavaScript strings are sequences of UTF-16 code units, while Dafny strings here are sequences of Unicode scalar values. A string holding a lone surrogate code unit cannot be represented, and a character outside the Basic Multilingual Plane is one element here but two in JavaScript. Neither changes `split`, `trim` or `join` with the separators used here, since no separator and no whitespace character is a surrogate or lies outside the Basic Multilingual Plane.
- User ids are JavaScript numbers. They are modelled as unbounded integers because the code only displays them.
