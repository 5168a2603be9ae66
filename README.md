# Client registry — a Dafny model of `ClientManager`

`script.js` is a browser page that keeps a list of customers in memory. The
`ClientManager` object holds the array `clients` of records
`{id, name, email, phone, active}`. Three form handlers change it:

- `registerClient` appends an active record whose id is the current length plus one.
- `updateClient` overwrites the non-empty fields of the first record with the given id.
- `deactivateClient` clears that record's `active` flag.

Update and deactivate report "Cliente no encontrado" when no record has the id.
A menu switch (`displayContent`) turns one of four action tokens into a form or
the client list. The list shows an empty-state message or one row per record,
with the status `Activo` or `Inactivo`.

The model has three modules:

- `ClientRecords` (records.dfy): the record, the outcome (`Success` / `NotFound`)
  and the three operations as functions on `seq<Client>`. Sessions of submitted
  forms are folded by `ApplyAll`. The lemmas cover numbering, uniqueness,
  field-wise update, idempotence and "never reactivated".
- `ClientStore` (store.dfy): class `ClientManager` with the field
  `clients: seq<Client>`. It has the `findIndex` scan as a loop and the three
  handlers as methods with `modifies this`. Each is proved equal to the
  function of `ClientRecords`. The object invariant `Valid()` is "the record at
  position i has id i + 1".
- `Presentation` (presentation.dfy): the action switch, the list's row/status
  rule, and which store operation each form's submission leads to.

Modelling choices:

- Form inputs are parameters. The id is the result of `parseInt`, as
  `Option<int>`; `None` stands for NaN, which equals no id.
- Alerts become the returned `Outcome`.
- The action tokens are the Spanish ones `displayContent` switches on
  (script.js:40-49): `registrar`, `consultar`, `actualizar` and `desactivar`.
- `registerClient` returns nothing and always shows the success alert
  (script.js:103), so `RegisterClient` returns `Success`.

## Model

| member | source | states |
|---|---|---|
| ClientRecords.IndexOf | script.js:187 | the first position whose record has the given id, or -1 exactly when no record has it; NaN matches nothing |
| ClientRecords.Register | script.js:94-102 | one record is appended with id old length + 1, the given name/email/phone and active true; earlier records are untouched |
| ClientRecords.Update | script.js:187-197 | NotFound exactly when no record has the id, and then the store is unchanged; on Success only the first matching record changes, to the merged record; the length never changes |
| ClientRecords.Deactivate | script.js:227-234 | NotFound exactly when no record has the id, and then the store is unchanged; on Success only the first matching record changes, to the same record with active false |
| ClientRecords.WellNumberedIdsUnique | script.js:95 | ids numbered 1..n by position are pairwise distinct |
| ClientRecords.WellNumberedIndexOf | script.js:187 | in a well-numbered store id k is found at position k - 1 when 1 <= k <= n and nowhere otherwise |
| ClientRecords.NaNIsNeverFound | script.js:182-192 | an unparsable id is never found, so update (whatever field values are given) and deactivate report NotFound and change nothing |
| ClientRecords.Apply | script.js:89-238 | a submitted form runs its handler: registration always reports success and adds one record; update and deactivate keep the length, and a NotFound leaves the store unchanged |
| ClientRecords.ApplyPreservesNumbering | script.js:94-102 | each of register, update and deactivate keeps ids equal to 1..n by position |
| ClientRecords.ApplyAllPreservesNumbering | script.js:89-238 | any sequence of submitted forms keeps ids equal to 1..n by position |
| ClientRecords.SessionIdsUnique | script.js:5 | from the empty store, after any session the ids are 1..n and unique |
| ClientRecords.RegisterAllAppends | script.js:94-102 | k registrations append k active records numbered on from the old length, in order, with the given fields; the earlier records stay |
| ClientRecords.RegisterFromEmpty | script.js:94-102 | N registrations on the empty store give records with ids 1..N in insertion order, all active |
| ClientRecords.UpdateFields | script.js:194-197 | on a found record each of name, email, phone is replaced exactly when the given value is non-empty; id and active never change |
| ClientRecords.UpdateWithNothingChangesNothing | script.js:194-197 | an update with all fields empty leaves the store identical |
| ClientRecords.IndexOfSameIds | script.js:187 | the lookup depends only on the ids at each position |
| ClientRecords.ApplyKeepsIds | script.js:89-238 | no operation removes a record or changes the id of an existing one |
| ClientRecords.UpdateIdempotent | script.js:187-197 | repeating an update gives the same store and the same outcome |
| ClientRecords.DeactivateIdempotent | script.js:227-234 | repeating a deactivation gives the same store and the same outcome, Success on a found id |
| ClientRecords.DeactivateClearsActive | script.js:234 | a successful deactivation leaves the matched record inactive and its other fields as they were |
| ClientRecords.ApplyNeverReactivates | script.js:234 | no operation sets active back to true on an existing record |
| ClientRecords.ApplyAllNeverReactivates | script.js:89-238 | over any session an inactive record stays present and inactive |
| ClientStore.ClientManager.constructor | script.js:4-5 | the store starts empty and satisfies the numbering invariant |
| ClientStore.ClientManager.FindIndex | script.js:187 | the linear scan returns the first matching index or -1 when none matches, and agrees with IndexOf |
| ClientStore.ClientManager.RegisterClient | script.js:89-106 | the new store is the old one with the new record appended; reports success; keeps the invariant |
| ClientStore.ClientManager.UpdateClient | script.js:181-202 | the new store and the outcome are those of Update on the old store; keeps the invariant |
| ClientStore.ClientManager.DeactivateClient | script.js:225-238 | the new store and the outcome are those of Deactivate on the old store; keeps the invariant |
| Presentation.ParseAction | script.js:39-57 | each of the four tokens maps to its own action, and no other token maps to any of them |
| Presentation.StatusLabel | script.js:138 | the label is Activo exactly when active, Inactivo exactly when not |
| Presentation.Rows | script.js:132-140 | one row per record, in order, each carrying the record's fields and status label |
| Presentation.ShowClientList | script.js:108-146 | the empty-state view exactly when there are no records; otherwise one row per record in order, labelled Activo iff active |
| Presentation.DisplayContent | script.js:35-58 | each token opens its own form or the client list of the current store, and every other token gives the invalid-option screen |
| Presentation.Submit | script.js:82-86 | only the three forms submit anything; the registration form asks for register with its name, email and phone, the update form for update with its id and fields, the deactivation form for deactivate with its id |
| Presentation.DispatchRoutes | script.js:39-57 | registrar, actualizar and desactivar lead to register, update and deactivate; consultar and any other token leave the store unchanged |
| Presentation.ScenarioUpdateThenDeactivate | script.js:89-238 | two registrations, an update of client 1's phone and a deactivation of client 2 give the expected records and table |

## Left out

- DOM access and event wiring (`initEventListeners`, `querySelectorAll`, `addEventListener`, the `DOMContentLoaded` hook): browser plumbing with no logic.
- `openModal` / `closeModal`: they only set a CSS display property.
- The HTML of the forms and of the table: only the row fields and the status label are modelled.
- `showAlert` and its 3-second removal timer: timed UI behaviour, modelled as the returned `Outcome`.
- `parseInt` on the id field: its result is taken as `Option<int>`, with `None` for NaN. String-to-number parsing is not modelled.
- `console.log`: output with no effect on the store.
- JavaScript object identity: records are values in a sequence. In the source they are objects updated in place, but no other code holds a reference to them, so aliasing does not arise.
- An `action` that is `undefined` (a link without `data-action`): the switch sends it to the default branch, like any unrecognised string. The model only takes strings.
- Number width: ids are unbounded integers. JavaScript numbers are doubles, exact for every id below 2^53.
