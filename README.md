# N:N relationship reconciliation, modelled in Dafny

This project models the many-to-many ("N:N") relationship manager of the
configuration data mover, `NtoNRecordManager`. The manager takes a batch of
link records that all belong to one N:N relationship. It aims to make the
platform's intersect table for that relationship hold exactly the batch's
pairs. It reaches that only when the table's existing rows come back in one
page of the purge query (see "## Left out"):

1. When the batch is empty, it does nothing at all.
2. Otherwise it looks up the relationship's metadata once, by the logical name
   of the first record, and casts the answer to the many-to-many shape.
3. It purges every existing association. It queries the intersect table for
   its two intersect attributes, then disassociates each returned row twice:
   side 1 from side 2, then side 2 from side 1.
4. It associates side 1 with side 2 for every record, in order, without
   deduplication.

Every association and disassociation carries the relationship's schema name.
It carries the role `Referenced` when both sides are the same entity. No
request is wrapped in a handler, so the first failure ends the batch, and
nothing done before it is undone.

Files:

- `sdk.dfy` (module `Sdk`): the SDK values the manager touches. These are
  entity references, records with their identifier attributes, relationship
  metadata, queries, the four kinds of request, responses, and the reasons a
  batch stops.
- `fake_service.dfy` (module `FakeService`): a class `OrganizationService`
  standing in for the platform. It has a fixed catalog of relationships, a
  fixed set of requests it rejects, the intersect table as a sequence of
  links, and the trace of every request issued.
  - `Ran` says what "sent `plan` one request at a time, stopping at the first
    failure" means for the trace and the table.
  - The lemmas beside `Ran` compose such runs.
- `nton_record_manager.dfy` (module `NtoNRecordManager`): the manager.
  - `Plan` is the exact request sequence of a batch when nothing fails. The
    lemmas say what that sequence is and what it does to the table.
  - The methods mirror the source's procedures and loops. Each is proved to
    send its part of the plan up to the first failure.

What the manager does not do:

- It does not reject a record missing an intersect attribute.
  `GetAttributeValue` yields the empty identifier, and the request is sent
  with it.
- It does not treat a failed disassociation as a no-op. Every failed request
  ends the batch.
- It raises no error of its own for an unknown relationship name or a
  relationship that is not many-to-many. The first is a failed lookup
  request; the second is the failed cast.

## Model

| member | source | states |
|---|---|---|
| NtoNRecordManager.CreateRelationships | AlexanderDevelopment.ConfigDataMover.Lib/NtoNRecordManager.cs:18-51 | The batch sends exactly `Plan` up to its first failed request, and nothing after it. The table takes the effect of exactly the requests that succeeded. A stopped batch names the failed request, which is the last one in the trace. An empty batch completes without sending anything or changing the table. The batch stops on the cast exactly when the lookup succeeds and yields a relationship that is not many-to-many. Then the fault names the first record's logical name, only the lookup was sent, and the table is unchanged. A completed non-empty batch used a many-to-many relationship. If the table held only this relationship's links, it now holds exactly the records' pairs. |
| NtoNRecordManager.GetRelationshipMetadataFromRecord | AlexanderDevelopment.ConfigDataMover.Lib/NtoNRecordManager.cs:109-115 | Sends one lookup, named by the record's logical name, and leaves the table alone. The result is the failed request, the failed cast, or the many-to-many metadata, as `Lookup` defines. |
| NtoNRecordManager.PurgeExistingRelationships | AlexanderDevelopment.ConfigDataMover.Lib/NtoNRecordManager.cs:54-107 | Sends `PurgePlan` of the table as it was on entry, up to the first failure. That is the query, then two disassociations per stored row. The table takes exactly the effect of the requests that succeeded. |
| NtoNRecordManager.DisassociateRows | AlexanderDevelopment.ConfigDataMover.Lib/NtoNRecordManager.cs:72-106 | The loop over the returned rows sends `PurgeRequests(rows)` up to the first failure. |
| NtoNRecordManager.DisassociateRow | AlexanderDevelopment.ConfigDataMover.Lib/NtoNRecordManager.cs:74-105 | One row sends side 1→side 2, then side 2→side 1, and stops after a first failure. |
| NtoNRecordManager.AssociateRecords | AlexanderDevelopment.ConfigDataMover.Lib/NtoNRecordManager.cs:28-48 | The creation loop sends `CreateRequests(records)` up to the first failure. |
| NtoNRecordManager.AssociateRecord | AlexanderDevelopment.ConfigDataMover.Lib/NtoNRecordManager.cs:30-47 | One record sends the association of its side-1 reference with its side-2 reference. |
| NtoNRecordManager.PurgeThenAssociate | AlexanderDevelopment.ConfigDataMover.Lib/NtoNRecordManager.cs:24-48 | The purge then the creation send `PurgePlan + CreateRequests` up to the first failure. A failed purge sends no association. |
| NtoNRecordManager.PlanShape | AlexanderDevelopment.ConfigDataMover.Lib/NtoNRecordManager.cs:20-50 | An empty batch's plan is empty. Otherwise the first request is the lookup named by the first record, and no other lookup follows. A relationship that is not many-to-many ends the plan after the lookup. For a many-to-many one, the second request queries the intersect entity for its two intersect attributes. Then come 2×(stored links) disassociations, and the rest are associations, one per record. |
| NtoNRecordManager.ManyToManyShape | AlexanderDevelopment.ConfigDataMover.Lib/NtoNRecordManager.cs:58-64 | In the many-to-many plan the query follows the lookup. It is followed by only disassociations, two per stored link, and then only associations, one per record. |
| NtoNRecordManager.PurgeRequestsAt | AlexanderDevelopment.ConfigDataMover.Lib/NtoNRecordManager.cs:72-106 | The purge sends 2×rows requests. For row k, request 2k disassociates (side-1 name, row's side-1 id) from (side-2 name, row's side-2 id), and request 2k+1 is the reverse. A missing attribute gives the default id. |
| NtoNRecordManager.CreateRequestsAt | AlexanderDevelopment.ConfigDataMover.Lib/NtoNRecordManager.cs:28-48 | The creation sends exactly one association per record, in record order, duplicates included. Request k associates record k's side-1 reference with its side-2 reference. |
| NtoNRecordManager.PurgeOnlyDisassociates | AlexanderDevelopment.ConfigDataMover.Lib/NtoNRecordManager.cs:77-97 | The purge's requests are all disassociations, 2×rows of them. |
| NtoNRecordManager.CreateOnlyAssociates | AlexanderDevelopment.ConfigDataMover.Lib/NtoNRecordManager.cs:33-38 | The creation's requests are all associations, one per record. |
| NtoNRecordManager.PurgeBeforeCreate | AlexanderDevelopment.ConfigDataMover.Lib/NtoNRecordManager.cs:24-28 | In every batch, each disassociation comes before each association. |
| NtoNRecordManager.PlanRoles | AlexanderDevelopment.ConfigDataMover.Lib/NtoNRecordManager.cs:40-43 | Every association and disassociation of a many-to-many batch names the relationship's schema. It carries `Referenced` if and only if its target and related entity names are equal. Its role is the same for the whole batch: `Referenced` when side 1 and side 2 are one entity, none otherwise. |
| NtoNRecordManager.PurgeTagged | AlexanderDevelopment.ConfigDataMover.Lib/NtoNRecordManager.cs:84-102 | The role rule (`Tagged`) holds for every disassociation of the purge, in both directions. |
| NtoNRecordManager.CreateTagged | AlexanderDevelopment.ConfigDataMover.Lib/NtoNRecordManager.cs:35-43 | The role rule (`Tagged`) holds for every association of the creation. |
| NtoNRecordManager.PurgeMembership | AlexanderDevelopment.ConfigDataMover.Lib/NtoNRecordManager.cs:72-106 | After the purge's disassociations for `rows`, a link remains exactly when it was stored and no row names it in either direction. |
| NtoNRecordManager.CreateMembership | AlexanderDevelopment.ConfigDataMover.Lib/NtoNRecordManager.cs:28-48 | After the creation's associations, a link is stored exactly when it was stored before or some record describes it. |
| NtoNRecordManager.PurgeClears | AlexanderDevelopment.ConfigDataMover.Lib/NtoNRecordManager.cs:54-107 | If the table holds only this relationship's links, a purge that succeeds throughout leaves it empty. |
| NtoNRecordManager.PurgeIdempotent | AlexanderDevelopment.ConfigDataMover.Lib/NtoNRecordManager.cs:54-107 | A second purge right after a successful one sends the query alone and deletes nothing. |
| NtoNRecordManager.PlanEndState | AlexanderDevelopment.ConfigDataMover.Lib/NtoNRecordManager.cs:13-51 | When every request of a non-empty many-to-many batch succeeds on a table holding only this relationship's links, the table ends up holding exactly the records' pairs, whatever it held before. |
| FakeService.OrganizationService.Execute | AlexanderDevelopment.ConfigDataMover.Lib/NtoNRecordManager.cs:47 | Each request is appended to the trace. A failed request answers `Faulted` and leaves the table unchanged. A successful one answers from the table as it was and applies its effect. |
| FakeService.Without | AlexanderDevelopment.ConfigDataMover.Lib/NtoNRecordManager.cs:90 | The table after a disassociation holds exactly the other links, and it is no longer. |
| FakeService.IssuedFailures | AlexanderDevelopment.ConfigDataMover.Lib/NtoNRecordManager.cs:28-48 | A run with no exception handling has at most one failed request, the last one it sent, and only when it stopped. |
| FakeService.IssuedDeterministic | AlexanderDevelopment.ConfigDataMover.Lib/NtoNRecordManager.cs:28-48 | Stopping at the first failure allows exactly one trace and verdict for a plan on a given platform. |
| FakeService.RanThen | AlexanderDevelopment.ConfigDataMover.Lib/NtoNRecordManager.cs:22-28 | A run of one part of a plan that completes, followed by a run of the next part, is a run of the concatenated plan. The table composes the same way. |
| FakeService.RanStop | AlexanderDevelopment.ConfigDataMover.Lib/NtoNRecordManager.cs:22-28 | A run that stopped at a failure within a prefix of a plan is a stopped run of the whole plan: nothing after the failure is sent. |

## Left out

- Logging through log4net (lines 26, 45, 56, 69, 89 and 104) is left out. It sends no request and changes no state the model tracks.
- The platform's real semantics are replaced by the fake service. Its catalog and set of rejected requests are fixed. An association of a stored link and a disassociation of a missing link succeed as no-ops. A query answers one row per stored link, with the ids under the two projected columns in order. Which requests a real platform rejects is not modelled.
- The fake holds the intersect table of one relationship only, so a query for another entity answers with the same links.
- Transport and the SDK's exception types are not modelled: every exception thrown by `Execute` or `RetrieveMultiple` is one failed request. The cast failure is its own fault kind.
- `RelatedEntities` is always a collection of one reference in the source, so it is modelled as a single reference.
- Identifiers are opaque integers with `0` as `Guid.Empty`. Their structure plays no part.
- Records keep only their identifier-valued attributes, so an intersect attribute that holds a value of another type reads as the empty identifier. In the source, `GetAttributeValue<Guid>` throws for such an attribute (lines 30-31 and 74-75), and the model does not capture that failure.
- Paging of the purge query is not modelled: the fake answers the whole intersect table in one response. The source reads `RetrieveMultiple(qry).Entities` once (lines 58-67). It sets no paging information and never follows `MoreRecords`, so it disassociates only the rows of the first page the platform returns. The end-state promises of `PurgeClears`, `PurgeIdempotent`, `PlanEndState` and the last postcondition of `CreateRelationships` therefore hold only for an intersect table that fits in one page. A larger table keeps the links beyond that page after the purge.
- `PluginManager.cs` is not part of this model.
- A failed request still appears in the trace, as the platform saw it. The manager's callers, which would catch the exception, are not part of this model.
