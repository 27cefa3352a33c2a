# Contact identity consolidation, modelled in Dafny

This project models the core of a contact identity service. The service
stores contacts (an email, a phone number, or both) in one `contacts` table.
Contacts that share an email or a phone number are one customer, called a
*network*. Each network has one **primary** contact, its oldest. Every other
contact in it is a **secondary** whose `linked_id` names the primary.

Each `identify` request (`email`, `phoneNumber`) does the following:

1. It looks up the live contacts that match either identifier.
2. It expands them to their networks.
3. It settles the network's primary:
   - it merges several networks under the oldest of their primaries;
   - or it takes the single one;
   - or, if no group key resolves, it promotes the oldest row.
4. It adds a new secondary when the request brings information the network lacks.
5. It re-links every member to the primary.
6. It presents the primary's id, the emails and phone numbers (the primary's
   first) and the secondary ids.

## Structure

- **`Contacts`** (`contacts.dfy`): the record (`Contact`), precedences, errors and HTTP statuses, and JavaScript truthiness of identifiers (`Given`, `Normalize`).
- **`Queries`** (`queries.dfy`): the two read queries, as functions over the table (`map<nat, Contact>`, keyed by id, ids below the next SERIAL value).
- **`Networks`** (`networks.dfy`): grouping by effective primary id (the `networks` Map), concatenating the groups, resolving group keys to rows, choosing the oldest, and the rule for adding a secondary.
- **`Resolution`** (`resolution.dfy`): `Resolve`, what one consolidation computes (new table, primary, members), as a function of the table it starts from.
- **`ContactStore`** (`store.dfy`): the `Contact` model as a class.
  - Its fields are the table, the id SERIAL and the clock.
  - `CreateContact` and `UpdateLinkPrecedence` are the two writes.
  - `Consolidate` runs the resolver's loops one write at a time, and is proved to end in `Resolve`'s outcome.
- **`Consolidation`** (`properties.dfy`): what consolidation promises, proved over `Resolve`.
- **`LinkInvariant`** (`invariant.dfy`): consolidation keeps a well-linked table well linked.
- **`Repetition`** (`repeat.dfy`): the same request submitted twice.
- **`Seqs`** and **`Presenters`** (`seqs.dfy`, `presenters.dfy`): `new Set(...)`, `indexOf`/`splice`/`unshift`, and the listings both presenters build.
- **`ContactController`** (`controller.dfy`): the `identify` endpoint and `formatIdentifyResponse`.
- **`ContactService`** (`service.dfy`): `getContactIdentity` and `formatContactIdentity`.

Where the code and the service's documented behaviour disagree, the model
follows the code:

- **Ties.** The merge branch takes the oldest resolved primary with a stable
  sort on `created_at`. An equally old primary therefore wins by its position
  in the key order, not by the smaller id.
- **No re-check of identifiers.** `consolidateContacts` does not itself reject
  a request with neither identifier. With neither, nothing matches, and a
  primary with a null email and phone is created. `createContact` does not
  refuse that either. Only the controller and the service reject such a
  request, with status 400.
- **Promotion keeps the stored link.** When no group key resolves, the oldest
  row is promoted with `updateLinkPrecedence(id, 'primary', null)`. That call
  leaves `linked_id` unchanged when given null. The stored row is then a
  primary that keeps its old `linked_id`, while the returned copy shows null
  (`Consolidation.PromotionKeepsStoredLink`).
- **Single branch.** When exactly one group key resolves, the members are the
  *first* group (`Array.from(networks.values())[0]`). That group need not be
  the primary's. The returned members can therefore omit the primary.
- **The controller inserts.** The controller's presenter puts the primary's
  email (or phone) first even when no member has it. The service's presenter
  only moves a value a member already has.
- **A repeat after a merge can insert.** An exact repeat of a request is
  documented as idempotent. It is after a call that inserted a row
  (`Repetition.RepeatAfterInsert`). It is not always after a merge. Take two
  live primaries: row 1 with email `e1` and phone `p1`, row 2 with email `e2`
  and phone `p2`. A request (`e1`, `p2`) merges them and inserts nothing,
  since a merge never creates a row (`Contact.js` lines 221-224). The same
  request again finds one network in which no member holds that exact pair,
  so it inserts row 3 (lines 230-235) and the response gains a secondary id
  (`Repetition.RepeatAfterMergeInserts`).

## Model

| member | source | states |
|---|---|---|
| Queries.FoundContacts | backend/src/models/Contact.js:14-42 | the rows found are exactly the live rows whose email equals the given email or whose phone equals the given phone, and they come back in ascending `created_at` order |
| Queries.LinkedContacts | backend/src/models/Contact.js:49-77 | the linked rows are exactly the live rows whose id, or whose `linked_id`, is the effective primary id of a live seed, in ascending `created_at` order |
| Queries.NetworkIdsStored | backend/src/models/Contact.js:53-64 | the `contact_network` ids are stored rows; every stored live seed contributes its effective primary id; seeds that are unknown or deleted contribute none |
| Queries.StoredKey | backend/src/models/Contact.js:139-146 | on a stored row, the loop's truthiness test of `linked_id` gives the same key as the query's null test (ids are positive), and the key is a stored row: the row itself, or the row its `linked_id` names |
| Queries.SeedsAreLinked | backend/src/models/Contact.js:129-131 | network expansion keeps every row found by identifier |
| Queries.LinkedRows | backend/src/models/Contact.js:65-76 | every linked row is a row of the table, as stored |
| Networks.NetworkKeys | backend/src/models/Contact.js:137-152 | the Map's keys have no duplicates, and a key is present iff some linked row has it as its effective primary id |
| Networks.Group | backend/src/models/Contact.js:148-151 | a group holds exactly the linked rows with that key |
| Networks.GroupByPrimary | backend/src/models/Contact.js:135-152 | the grouping loop, keyed by the truthiness test, yields the keys in first-seen order and, for each key, exactly its group in input order |
| Networks.CollectNetworks | backend/src/models/Contact.js:173-175 | the concatenation loop yields the groups one after another in key order |
| Networks.FlattenIsPermutation | backend/src/models/Contact.js:172-175 | concatenating all groups gives a permutation of the linked rows: each row exactly once |
| Networks.FindById | backend/src/models/Contact.js:156 | `find` returns a row with that id, or nothing when no row has it |
| Networks.ResolvedPrimaries | backend/src/models/Contact.js:155-157 | each resolved primary is a linked row whose id is a key; every key that is some linked row's id is resolved; there are at most as many as keys |
| Networks.Oldest | backend/src/models/Contact.js:168-170 | the result is one of the rows with the smallest `created_at`, and the first such one (stable sort) |
| Networks.ShouldCreate | backend/src/models/Contact.js:219-243 | with both identifiers, a secondary is added iff no member has exactly that pair; with one identifier, iff no member has that value; with none, never |
| Resolution.NoMatchExactly | backend/src/models/Contact.js:110-127 | a fresh primary is created exactly when no live row has the given email or the given phone number |
| Resolution.Resolve | backend/src/models/Contact.js:107-273 | a consolidation deletes no row and inserts at most one, under the next id; the returned primary is a stored row |
| Resolution.DecidedRows | backend/src/models/Contact.js:155-211 | the chosen primary and every other member are rows of the table as read; a promoted primary differs from its row only in precedence and link |
| Resolution.Staged | backend/src/models/Contact.js:245-252 | the table before the final re-linking has the old ids, plus the next id when a secondary is created |
| Resolution.StagedUnchanged | backend/src/models/Contact.js:195-198 | when the primary's row is already final, staging only inserts the new secondary |
| ContactStore.Store.constructor | backend/src/database/migrations/create_contacts_table.js:5-6 | the table starts empty and the id SERIAL starts at 1 |
| ContactStore.Store.CreateContact | backend/src/models/Contact.js:79-92 | inserts one row with the next id and the current time; empty identifiers become null; nothing else changes |
| ContactStore.Store.UpdateLinkPrecedence | backend/src/models/Contact.js:94-105 | an unknown id is a not-found error (404) with the table unchanged; otherwise only that row changes: the precedence is set, and `linked_id` is set unless null was passed |
| ContactStore.Store.DemoteOtherPrimaries | backend/src/models/Contact.js:177-184 | every resolved primary other than the survivor is written as a secondary of it, in the table and in the fetched copies |
| ContactStore.Store.RelinkStale | backend/src/models/Contact.js:186-193 | afterwards every member is the survivor or points at it, and the table mirrors the fetched copies |
| ContactStore.Store.RepairLinks | backend/src/models/Contact.js:256-264 | afterwards every member other than the primary is counted as re-linked: written, or already a secondary of the primary |
| ContactStore.Store.LinkMember | backend/src/models/Contact.js:260-262 | one `updateLinkPrecedence(x, 'secondary', f)` and the matching update of every fetched copy of `x` |
| ContactStore.Store.MergeNetworks | backend/src/models/Contact.js:163-193 | the survivor is the oldest resolved primary, the members are the groups concatenated, and the write loops leave the table mirroring them |
| ContactStore.Store.PromoteOldest | backend/src/models/Contact.js:199-211 | the oldest linked row becomes the primary; the stored row only changes precedence, and the returned copy has no link |
| ContactStore.Store.ChoosePrimary | backend/src/models/Contact.js:195-211 | outside a merge, the chosen primary and members are those `Decide` names |
| ContactStore.Store.SettleOne | backend/src/models/Contact.js:195-254 | outside a merge, the primary, the members before re-linking and the creation are those `Decide` names, the table is the staged one, and the SERIAL and clock advance iff a row was inserted |
| ContactStore.Store.AddIfNew | backend/src/models/Contact.js:213-254 | a new secondary of the primary is inserted and appended exactly when `ShouldCreate` holds |
| ContactStore.Store.Settle | backend/src/models/Contact.js:129-254 | settles the primary, the members and the creation exactly as `Decide` says |
| ContactStore.Store.Consolidate | backend/src/models/Contact.js:107-273 | the table, primary and members left are exactly `Resolve`'s outcome; the id SERIAL advances iff a row was inserted |
| ContactStore.AlreadyLinked | backend/src/models/Contact.js:258-259 | a member already linked to the primary needs no write |
| ContactStore.FinishRelinking | backend/src/models/Contact.js:256-264 | once every member has been handled, the table is fully re-linked |
| Consolidation.MembersLinkedToPrimary | backend/src/models/Contact.js:256-271 | after consolidation every member other than the primary is a secondary linked to it, and the table holds exactly the returned member; the primary's row has the returned precedence |
| Consolidation.AtMostOneRecordCreated | backend/src/models/Contact.js:113-127 | one call inserts at most one row, under the next id, and deletes none; with no match it is a new primary, returned as primary and sole member; otherwise it is a new secondary of the primary, appended last |
| Consolidation.OthersUntouched | backend/src/models/Contact.js:107-273 | rows outside the returned network, other than the primary's, are unchanged |
| Consolidation.MergeKeepsOldestPrimary | backend/src/models/Contact.js:163-193 | in a merge, the primary is the oldest resolved primary; every other resolved primary is stored as its secondary; no row is added; the members are the linked rows, each once |
| Consolidation.MergedMembers | backend/src/models/Contact.js:172-175 | concatenating and re-linking the groups keeps the number and the ids of the linked rows |
| Consolidation.RelinkedIds | backend/src/models/Contact.js:257-264 | re-linking the members keeps each one's position and id |
| Consolidation.OldestLinkedIsSecondary | backend/src/models/Contact.js:199-204 | when no group key resolves, the first linked row is the oldest and is a secondary (an orphan) |
| Consolidation.PrimaryRowResolves | backend/src/models/Contact.js:139-140 | a primary among the linked rows is keyed by its own id, so at least one key resolves |
| Consolidation.PromotionKeepsStoredLink | backend/src/models/Contact.js:199-211 | on promotion, the returned primary is the oldest row with primary precedence and no link, while its stored row only changes precedence and keeps its `linked_id` |
| Consolidation.CreationRule | backend/src/models/Contact.js:219-254 | a merge never adds a row; otherwise a row is added iff the network lacks the exact pair (both identifiers) or the single value (one identifier) |
| LinkInvariant.ConsolidationKeepsWellLinked | backend/src/models/Contact.js:107-273 | if every live primary has no link and every live secondary links straight to a live primary, that still holds after consolidation: one primary per network, no chains |
| LinkInvariant.NetworkIdsArePrimaries | backend/src/models/Contact.js:54-64 | in a well-linked table each seed's effective primary id is a live primary |
| LinkInvariant.LinkedKeys | backend/src/models/Contact.js:137-152 | in a well-linked table every linked row's key is a network id, and so is every linked primary's id |
| LinkInvariant.KeysResolve | backend/src/models/Contact.js:155-157 | in a well-linked table every group key resolves, and only to live primaries |
| LinkInvariant.SettledNetwork | backend/src/models/Contact.js:163-211 | in a well-linked table the primary chosen is a live primary, and the members cover every linked row |
| LinkInvariant.SingleGroupCovers | backend/src/models/Contact.js:195-198 | when every group key resolves to the one primary, the first group holds every linked row |
| LinkInvariant.RelinkKeepsWellLinked | backend/src/models/Contact.js:256-264 | re-linking a set closed under incoming links to a live primary keeps the table well linked |
| LinkInvariant.StagedWellLinked | backend/src/models/Contact.js:245-252 | the new secondary links to a live primary, so the staged table is well linked |
| LinkInvariant.StagedClosed | backend/src/models/Contact.js:67-70 | any live secondary that points at a member other than the primary is itself a member |
| Repetition.ResolveKeepsTable | backend/src/models/Contact.js:107-273 | a consolidation keeps the table's constraints (positive ids below the next SERIAL value, links to stored rows, `created_at` rising with id), takes the next id and time only when it inserts, and keeps every stored row's identifiers, time and deletion mark |
| Repetition.CallSettles | backend/src/models/Contact.js:107-273 | on a well-linked table, with at least one identifier, the returned members are exactly the live rows that are the returned primary or link to it, that primary is a live primary, and every live row matching the request is a member |
| Repetition.SettledRepeat | backend/src/models/Contact.js:107-273 | on such a settled table, a call returns that primary and those members, plus the row it may insert |
| Repetition.RecordedNotReinserted | backend/src/models/Contact.js:219-254 | on a well-linked table, a request that some live row already records (it holds every identifier given) inserts nothing |
| Repetition.RepeatKeepsIdentity | backend/src/models/Contact.js:107-273 | repeating a request on the table the first call committed returns the same primary and the same member ids, plus at most the row the repeat inserts |
| Repetition.RepeatAfterInsert | backend/src/models/Contact.js:245-254 | a repeat of a call that inserted a row inserts nothing and returns the same primary and the same member ids |
| Repetition.RepeatAfterMergeInserts | backend/src/models/Contact.js:219-243 | two live primaries, one holding the request's email and the other its phone: the first call links the newer to the older and inserts nothing; the repeat inserts a new row |
| Presenters.EmailsOf | backend/src/controllers/ContactController.js:55-57 | the collected emails are exactly the members' non-empty emails |
| Presenters.PhonesOf | backend/src/controllers/ContactController.js:59-61 | the collected phone numbers are exactly the members' non-empty phone numbers |
| Presenters.SecondaryIdsSpec | backend/src/controllers/ContactController.js:50-52 | `secondaryContactIds` lists exactly the ids of secondary members other than the primary, in member order |
| Presenters.PrimaryFirstListing | backend/src/controllers/ContactController.js:63-84 | the controller's list has no duplicates, holds the members' values plus the primary's, puts the primary's first and keeps the rest in first-seen order |
| Presenters.MovedFirstListing | backend/src/services/ContactService.js:29-47 | the service's list has no duplicates and holds exactly the members' distinct values; the primary's value comes first when a member has it; the rest keep first-seen order |
| Presenters.MoveToFront | backend/src/services/ContactService.js:33-39 | `indexOf`, `splice` and `unshift` move a present value to the front and leave the rest in order; an absent value changes nothing |
| ContactController.PutFirst | backend/src/controllers/ContactController.js:63-73 | a value no member has is inserted at the front, a present one is moved there |
| ContactController.ResponseSpec | backend/src/controllers/ContactController.js:48-94 | the response has the primary's id; every member's email once plus the primary's, the primary's first; the same for phones; and the ids of the secondary members other than the primary |
| ContactController.FormatIdentifyResponse | backend/src/controllers/ContactController.js:48-94 | the method computes the response `ResponseSpec` describes |
| ContactController.Identify | backend/src/controllers/ContactController.js:23-45 | neither identifier is a validation error (400) and the table is unchanged; otherwise the response presents the outcome of consolidation |
| ContactService.IdentitySpec | backend/src/services/ContactService.js:20-55 | the identity has the primary's id; the members' distinct emails, the primary's first only when a member has it; the same for phones; and the ids of the secondary members other than the primary |
| ContactService.FormatContactIdentity | backend/src/services/ContactService.js:20-55 | the method computes the identity `IdentitySpec` describes |
| ContactService.GetContactIdentity | backend/src/services/ContactService.js:5-18 | neither identifier is a validation error (400) and the table is unchanged; otherwise the result presents the outcome of consolidation |
| Seqs.DistinctFirstSeen | backend/src/services/ContactService.js:29-30 | `[...new Set(s)]` keeps values in order of first occurrence |
| Seqs.Distinct | backend/src/services/ContactService.js:29-30 | `[...new Set(s)]` has no duplicates and holds exactly the values of `s` |
| Seqs.DistinctLength | backend/src/services/ContactService.js:29-30 | `[...new Set(s)]` has as many entries as `s` has different values |

## Left out

- Time: `created_at` is a counter that grows with every insertion. The table is assumed to keep `created_at` rising with `id`, since both are assigned when a row is inserted.
- `updated_at`: written on every update but never read by the core, so it is not kept.
- Database access:
  - SQL text and the connection pool are not modelled. A consolidation is modelled as one step over the table, with no other request in between.
  - The writes are not atomic in the code. `database.transaction` runs `BEGIN` and `COMMIT` on a client of its own. Every query of `consolidateContacts` goes through `database.query`, that is `pool.query`, outside that client. A failure part-way therefore leaves the earlier writes in place. No store failure is modelled, so the model does not capture those partial states.
  - Concurrent requests are not modelled, and neither is the race between two first requests for the same identity.
- ContactStore.Store.CreateContact: a `linked_id` that names no stored row is excluded by a precondition. The database's foreign-key error for it is not modelled; the resolver only ever passes a stored primary's id.
- ContactStore.Store.UpdateLinkPrecedence: a new `linked_id` that names no stored row is excluded by a precondition, for the same reason.
- Networks.GroupByPrimary: the loop tests `linked_id` for truthiness, as the code does, and the `contact_network` query tests it for null. The two differ only for a `linked_id` of 0. The loop therefore requires that the two tests agree on its rows. They do on every stored row, since ids start at 1 and `linked_id` is a foreign key (`Queries.StoredKey`), and the caller proves it for the linked rows.
- The `Repetition` lemmas assume a well-linked table (every live primary unlinked, every live secondary linked straight to a live primary) and at least one identifier. The empty table is well linked and every consolidation keeps it so (`LinkInvariant.ConsolidationKeepsWellLinked`); both endpoints reject a request with neither identifier.
- Logging (`console.log`) and the HTTP layer are not modelled: routes, Joi validation, the error middleware and the JSON envelope. The 400 guard of the controller and of the service is modelled.
- `getAllContacts`, `findAll`, `findById`, `findOne` and `delete` are not used by the consolidation and are not modelled.
- Soft deletion: no code path sets `deleted_at`. Rows may carry it, and every query skips them.
- BaseModel's "no data provided for update" error is not modelled. It cannot happen, since `updateLinkPrecedence` always sends the precedence.
- ContactStore.Store.MergeNetworks: `primaryContacts.sort` reorders that array in place before the demotion loop. The model demotes in key order. Only the order of the writes differs, not the final table.
- ContactStore.Store.Consolidate: the tie between equally old primaries follows key order, as in the code. The smaller-id tie-break of the service's documented behaviour is not modelled.
