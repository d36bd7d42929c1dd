/** The N:N relationship manager: for a batch of link records it looks up the
    relationship once, purges every existing association of it (in both
    directions) and then associates each record's pair.

    The pure functions below state the exact request sequence a batch sends
    (`Plan`); the lemmas state what that sequence is; the methods send it
    through the fake service one request at a time and stop at the first
    failure, as the source does (it has no try/catch). */
module NtoNRecordManager {
  import opened Sdk
  import opened FakeService

  // ---------------------------------------------------------------------------
  // Building blocks of the requests

  /** The role a request carries: `Referenced` for a self-referential pair
      (both sides of the same entity), none otherwise. */
  function RoleFor(target: EntityRef, related: EntityRef): Option<EntityRole>
  {
    if target.logicalName == related.logicalName then Some(Referenced) else None
  }

  /** Side 1 of a row or record: side 1's entity name and the id its intersect attribute holds. */
  function Side1Ref(md: ManyToManyMetadata, e: Entity): EntityRef
  {
    EntityRef(md.entity1LogicalName, GetGuid(e, md.entity1IntersectAttribute))
  }

  /** Side 2 of a row or record. */
  function Side2Ref(md: ManyToManyMetadata, e: Entity): EntityRef
  {
    EntityRef(md.entity2LogicalName, GetGuid(e, md.entity2IntersectAttribute))
  }

  function DisassociateRequest(md: ManyToManyMetadata, target: EntityRef, related: EntityRef): Request
  {
    Disassociate(Relationship(md.schemaName, RoleFor(target, related)), target, related)
  }

  function AssociateRequest(md: ManyToManyMetadata, target: EntityRef, related: EntityRef): Request
  {
    Associate(Relationship(md.schemaName, RoleFor(target, related)), target, related)
  }

  /** The query that reads the whole intersect table, projecting the two intersect attributes. */
  function PurgeQuery(md: ManyToManyMetadata): Query
  {
    Query(md.intersectEntityName, [md.entity1IntersectAttribute, md.entity2IntersectAttribute])
  }

  // ---------------------------------------------------------------------------
  // The request sequence of a batch

  /** The disassociations the purge sends for the returned `rows`: per row,
      side 1 -> side 2 and then side 2 -> side 1. */
  function PurgeRequests(md: ManyToManyMetadata, rows: seq<Entity>): seq<Request>
    decreases |rows|
  {
    if rows == [] then []
    else
      PurgeRequests(md, rows[..|rows| - 1]) + RowRequests(md, rows[|rows| - 1])
  }

  /** The two disassociations for one row: side 1 -> side 2, then side 2 -> side 1. */
  function RowRequests(md: ManyToManyMetadata, row: Entity): seq<Request>
  {
    [DisassociateRequest(md, Side1Ref(md, row), Side2Ref(md, row)),
     DisassociateRequest(md, Side2Ref(md, row), Side1Ref(md, row))]
  }

  /** The associations the creation loop sends: one per record, side 1 -> side 2. */
  function CreateRequests(md: ManyToManyMetadata, records: seq<Entity>): seq<Request>
    decreases |records|
  {
    if records == [] then []
    else
      var record := records[|records| - 1];
      CreateRequests(md, records[..|records| - 1])
        + [AssociateRequest(md, Side1Ref(md, record), Side2Ref(md, record))]
  }

  /** Everything the purge sends when the intersect table holds `links`. */
  function PurgePlan(md: ManyToManyMetadata, links: seq<Link>): seq<Request>
  {
    [RetrieveMultiple(PurgeQuery(md))] + PurgeRequests(md, Rows(PurgeQuery(md), links))
  }

  /** The metadata a batch works with, when the lookup of `name` yields a
      many-to-many relationship. */
  predicate IsManyToMany(catalog: map<string, RelationshipMetadata>, name: string)
  {
    name in catalog && catalog[name].ManyToMany?
  }

  /** Everything a batch of `records` sends when nothing fails: nothing for an
      empty batch; otherwise the metadata lookup named by the first record,
      and, when that names a many-to-many relationship, the purge followed by
      the creation. */
  function Plan(catalog: map<string, RelationshipMetadata>, records: seq<Entity>, links: seq<Link>): seq<Request>
  {
    if |records| == 0 then []
    else
      var name := records[0].logicalName;
      [RetrieveRelationship(name)]
        + if IsManyToMany(catalog, name)
          then PurgePlan(catalog[name].manyToMany, links) + CreateRequests(catalog[name].manyToMany, records)
          else []
  }

  /** What the metadata lookup for `name` yields on `p`. */
  function Lookup(p: Platform, name: string): Result<ManyToManyMetadata>
  {
    if p.Fails(RetrieveRelationship(name)) then Failure(RequestFailed(RetrieveRelationship(name)))
    else match p.catalog[name]
      case ManyToMany(m) => Success(m)
      case OneToMany(_, _, _) => Failure(InvalidCast(name))
  }

  /** The links the records describe: (side 1, side 2) per record. */
  function Desired(md: ManyToManyMetadata, records: seq<Entity>): set<Link>
  {
    set r | r in records :: Link(Side1Ref(md, r), Side2Ref(md, r))
  }

  /** The intersect table is this relationship's: its two attributes are
      distinct and every stored link goes from side 1's entity to side 2's. */
  predicate Consistent(md: ManyToManyMetadata, links: seq<Link>)
  {
    && md.entity1IntersectAttribute != md.entity2IntersectAttribute
    && forall l | l in links ::
         l.target.logicalName == md.entity1LogicalName && l.related.logicalName == md.entity2LogicalName
  }

  // ---------------------------------------------------------------------------
  // What the plan is

  /** The purge sends exactly two disassociations per row, in row order: first
      target side 1 with related side 2, then the reverse; each reference pairs
      a side's entity name with the id the row holds under that side's
      intersect attribute. */
  lemma {:induction false} PurgeRequestsAt(md: ManyToManyMetadata, rows: seq<Entity>)
    ensures |PurgeRequests(md, rows)| == 2 * |rows|
    ensures forall k | 0 <= k < |rows| ::
      var e1 := EntityRef(md.entity1LogicalName, GetGuid(rows[k], md.entity1IntersectAttribute));
      var e2 := EntityRef(md.entity2LogicalName, GetGuid(rows[k], md.entity2IntersectAttribute));
      && PurgeRequests(md, rows)[2 * k] == DisassociateRequest(md, e1, e2)
      && PurgeRequests(md, rows)[2 * k + 1] == DisassociateRequest(md, e2, e1)
    decreases |rows|
  {
    if rows != [] {
      var init := rows[..|rows| - 1];
      PurgeRequestsAt(md, init);
      forall k | 0 <= k < |init| ensures rows[k] == init[k] { }
    }
  }

  /** The creation sends exactly one association per record, in record order,
      duplicates included: target side 1, related side 2. */
  lemma {:induction false} CreateRequestsAt(md: ManyToManyMetadata, records: seq<Entity>)
    ensures |CreateRequests(md, records)| == |records|
    ensures forall k | 0 <= k < |records| ::
      CreateRequests(md, records)[k] == AssociateRequest(md,
        EntityRef(md.entity1LogicalName, GetGuid(records[k], md.entity1IntersectAttribute)),
        EntityRef(md.entity2LogicalName, GetGuid(records[k], md.entity2IntersectAttribute)))
    decreases |records|
  {
    if records != [] {
      var init := records[..|records| - 1];
      CreateRequestsAt(md, init);
      forall k | 0 <= k < |init| ensures records[k] == init[k] { }
    }
  }

  /** The many-to-many part of a batch: lookup, query, purge, creation. */
  lemma ManyToManyShape(md: ManyToManyMetadata, name: string, records: seq<Entity>, links: seq<Link>)
    ensures var plan := [RetrieveRelationship(name)] + PurgePlan(md, links) + CreateRequests(md, records);
      && |plan| == 2 + 2 * |links| + |records|
      && plan[0] == RetrieveRelationship(name)
      && plan[1] == RetrieveMultiple(PurgeQuery(md))
      && (forall j | 2 <= j < 2 + 2 * |links| :: plan[j].Disassociate?)
      && (forall j | 2 + 2 * |links| <= j < |plan| :: plan[j].Associate?)
  {
    var rows := Rows(PurgeQuery(md), links);
    var purge, create := PurgeRequests(md, rows), CreateRequests(md, records);
    PurgeOnlyDisassociates(md, rows);
    CreateOnlyAssociates(md, records);
    var plan := [RetrieveRelationship(name)] + PurgePlan(md, links) + create;
    assert plan == [RetrieveRelationship(name), RetrieveMultiple(PurgeQuery(md))] + purge + create;
    forall j | 2 <= j < 2 + 2 * |links| ensures plan[j].Disassociate? {
      assert plan[j] == purge[j - 2];
    }
    forall j | 2 + 2 * |links| <= j < |plan| ensures plan[j].Associate? {
      assert plan[j] == create[j - 2 - 2 * |links|];
    }
  }

  /** The shape of a batch: an empty batch sends nothing; otherwise the first
      request is the one metadata lookup, named by the first record, and no
      other lookup follows; a relationship that is not many-to-many stops the
      batch right after it; a many-to-many one is followed by the query of its
      intersect table projecting its two intersect attributes, two
      disassociations per stored link and one association per record. */
  lemma PlanShape(catalog: map<string, RelationshipMetadata>, records: seq<Entity>, links: seq<Link>)
    ensures |records| == 0 ==> Plan(catalog, records, links) == []
    ensures |records| > 0 ==>
      var plan, name := Plan(catalog, records, links), records[0].logicalName;
      && plan[0] == RetrieveRelationship(name)
      && (forall j | 1 <= j < |plan| :: !plan[j].RetrieveRelationship?)
      && (!IsManyToMany(catalog, name) ==> plan == [RetrieveRelationship(name)])
      && (IsManyToMany(catalog, name) ==>
            var md := catalog[name].manyToMany;
            && |plan| == 2 + 2 * |links| + |records|
            && plan[1] == RetrieveMultiple(Query(md.intersectEntityName,
                            [md.entity1IntersectAttribute, md.entity2IntersectAttribute]))
            && (forall j | 2 <= j < 2 + 2 * |links| :: plan[j].Disassociate?)
            && (forall j | 2 + 2 * |links| <= j < |plan| :: plan[j].Associate?))
  {
    if |records| > 0 && IsManyToMany(catalog, records[0].logicalName) {
      var name := records[0].logicalName;
      var md := catalog[name].manyToMany;
      var plan := Plan(catalog, records, links);
      assert plan == [RetrieveRelationship(name)] + PurgePlan(md, links) + CreateRequests(md, records);
      ManyToManyShape(md, name, records, links);
      forall j | 1 <= j < |plan| ensures !plan[j].RetrieveRelationship? {
        if j >= 2 + 2 * |links| {
          assert plan[j].Associate?;
        } else if j >= 2 {
          assert plan[j].Disassociate?;
        }
      }
    }
  }

  /** Consequence of `PurgeRequestsAt`: the purge sends disassociations only. */
  lemma PurgeOnlyDisassociates(md: ManyToManyMetadata, rows: seq<Entity>)
    ensures |PurgeRequests(md, rows)| == 2 * |rows|
    ensures forall j | 0 <= j < |PurgeRequests(md, rows)| :: PurgeRequests(md, rows)[j].Disassociate?
  {
    PurgeRequestsAt(md, rows);
    forall j | 0 <= j < |PurgeRequests(md, rows)| ensures PurgeRequests(md, rows)[j].Disassociate? {
      var k := j / 2;
      assert j == 2 * k || j == 2 * k + 1;
    }
  }

  /** Consequence of `CreateRequestsAt`: the creation sends associations only. */
  lemma CreateOnlyAssociates(md: ManyToManyMetadata, records: seq<Entity>)
    ensures |CreateRequests(md, records)| == |records|
    ensures forall j | 0 <= j < |CreateRequests(md, records)| :: CreateRequests(md, records)[j].Associate?
  {
    CreateRequestsAt(md, records);
  }

  /** Purge precedes creation: every disassociation of a batch comes before its
      first association. */
  lemma PurgeBeforeCreate(catalog: map<string, RelationshipMetadata>, records: seq<Entity>, links: seq<Link>)
    ensures var plan := Plan(catalog, records, links);
      forall i, j | 0 <= i < |plan| && 0 <= j < |plan| && plan[i].Disassociate? && plan[j].Associate? :: i < j
  {
    PlanShape(catalog, records, links);
  }

  /** An association or disassociation names the relationship's schema and
      carries the role `Referenced` exactly when its target and related entity
      names are equal, and then only because side 1 and side 2 are the same
      entity; other requests carry no relationship. */
  predicate Tagged(md: ManyToManyMetadata, req: Request)
  {
    (req.Associate? || req.Disassociate?) ==>
      && req.relationship.schemaName == md.schemaName
      && (req.relationship.primaryEntityRole == Some(Referenced) <==>
            req.target.logicalName == req.related.logicalName)
      && req.relationship.primaryEntityRole
           == (if md.entity1LogicalName == md.entity2LogicalName then Some(Referenced) else None)
  }

  lemma {:induction false} PurgeTagged(md: ManyToManyMetadata, rows: seq<Entity>)
    ensures forall j | 0 <= j < |PurgeRequests(md, rows)| :: Tagged(md, PurgeRequests(md, rows)[j])
    decreases |rows|
  {
    if rows != [] {
      var before := PurgeRequests(md, rows[..|rows| - 1]);
      PurgeTagged(md, rows[..|rows| - 1]);
      var last := RowRequests(md, rows[|rows| - 1]);
      assert Tagged(md, last[0]) && Tagged(md, last[1]);
      forall j | 0 <= j < |before + last| ensures Tagged(md, (before + last)[j]) {
        if j >= |before| {
          assert (before + last)[j] == last[j - |before|];
        }
      }
    }
  }

  lemma {:induction false} CreateTagged(md: ManyToManyMetadata, records: seq<Entity>)
    ensures forall j | 0 <= j < |CreateRequests(md, records)| :: Tagged(md, CreateRequests(md, records)[j])
    decreases |records|
  {
    if records != [] {
      var before := CreateRequests(md, records[..|records| - 1]);
      CreateTagged(md, records[..|records| - 1]);
      var record := records[|records| - 1];
      var a := AssociateRequest(md, Side1Ref(md, record), Side2Ref(md, record));
      assert Tagged(md, a);
      assert CreateRequests(md, records) == before + [a];
    }
  }

  /** Every association and disassociation of a batch names the relationship's
      schema and carries the role `Referenced` exactly when its target and
      related entity names are equal (and no other role); as those names are
      side 1's and side 2's, either every such request of the batch carries the
      role or none does. */
  lemma PlanRoles(catalog: map<string, RelationshipMetadata>, records: seq<Entity>, links: seq<Link>)
    requires |records| > 0 && IsManyToMany(catalog, records[0].logicalName)
    ensures var plan, md := Plan(catalog, records, links), catalog[records[0].logicalName].manyToMany;
      forall j | 0 <= j < |plan| && (plan[j].Associate? || plan[j].Disassociate?) ::
        && plan[j].relationship.schemaName == md.schemaName
        && (plan[j].relationship.primaryEntityRole == Some(Referenced) <==>
              plan[j].target.logicalName == plan[j].related.logicalName)
        && plan[j].relationship.primaryEntityRole
             == (if md.entity1LogicalName == md.entity2LogicalName then Some(Referenced) else None)
  {
    var md := catalog[records[0].logicalName].manyToMany;
    var rows := Rows(PurgeQuery(md), links);
    var head := [RetrieveRelationship(records[0].logicalName), RetrieveMultiple(PurgeQuery(md))];
    var purge, create := PurgeRequests(md, rows), CreateRequests(md, records);
    PurgeTagged(md, rows);
    CreateTagged(md, records);
    var plan := Plan(catalog, records, links);
    assert plan == head + purge + create;
    forall j | 0 <= j < |plan| ensures Tagged(md, plan[j]) {
      if j < 2 {
        assert plan[j] == head[j];
      } else if j < 2 + |purge| {
        assert plan[j] == purge[j - 2];
      } else {
        assert plan[j] == create[j - 2 - |purge|];
      }
    }
  }

  // ---------------------------------------------------------------------------
  // The end state under the fake

  /** After a run of disassociations for `rows`, a link remains exactly when it
      was stored and no row names it in either direction. */
  lemma {:induction false} PurgeMembership(md: ManyToManyMetadata, ls: seq<Link>, rows: seq<Entity>, x: Link)
    ensures x in Replay(ls, PurgeRequests(md, rows)) <==>
      && x in ls
      && forall k | 0 <= k < |rows| ::
           x != Link(Side1Ref(md, rows[k]), Side2Ref(md, rows[k]))
           && x != Link(Side2Ref(md, rows[k]), Side1Ref(md, rows[k]))
    decreases |rows|
  {
    if rows != [] {
      var init, row := rows[..|rows| - 1], rows[|rows| - 1];
      var d1 := DisassociateRequest(md, Side1Ref(md, row), Side2Ref(md, row));
      var d2 := DisassociateRequest(md, Side2Ref(md, row), Side1Ref(md, row));
      var before := PurgeRequests(md, init);
      assert PurgeRequests(md, rows) == before + [d1] + [d2];
      assert (before + [d1] + [d2])[..|before| + 1] == before + [d1];
      assert (before + [d1])[..|before|] == before;
      PurgeMembership(md, ls, init, x);
      forall k | 0 <= k < |init| ensures rows[k] == init[k] { }
    }
  }

  /** After a run of associations for `records`, a link is stored exactly when
      it was stored before or some record describes it. */
  lemma {:induction false} CreateMembership(md: ManyToManyMetadata, ls: seq<Link>, records: seq<Entity>, x: Link)
    ensures x in Replay(ls, CreateRequests(md, records)) <==> x in ls || x in Desired(md, records)
    decreases |records|
  {
    if records != [] {
      var init, record := records[..|records| - 1], records[|records| - 1];
      var a := AssociateRequest(md, Side1Ref(md, record), Side2Ref(md, record));
      var before := CreateRequests(md, init);
      assert CreateRequests(md, records) == before + [a];
      ReplaySnoc(ls, before, a);
      CreateMembership(md, ls, init, x);
      DesiredSnoc(md, init, record);
      assert records == init + [record];
    }
  }

  lemma DesiredSnoc(md: ManyToManyMetadata, init: seq<Entity>, record: Entity)
    ensures Desired(md, init + [record]) == Desired(md, init) + {Link(Side1Ref(md, record), Side2Ref(md, record))}
  {
  }

  /** On a table consistent with the relationship, the purge empties it. */
  lemma PurgeClears(md: ManyToManyMetadata, links: seq<Link>)
    requires Consistent(md, links)
    ensures Replay(links, PurgePlan(md, links)) == []
  {
    var q := PurgeQuery(md);
    var rows := Rows(q, links);
    ReplayAppend(links, [RetrieveMultiple(q)], PurgeRequests(md, rows));
    assert Replay(links, [RetrieveMultiple(q)]) == links by {
      assert [RetrieveMultiple(q)][..0] == [];
    }
    var after := Replay(links, PurgeRequests(md, rows));
    forall i | 0 <= i < |links| ensures links[i] !in after {
      PurgeMembership(md, links, rows, links[i]);
      assert rows[i] == RowOf(q, links[i]);
      assert Link(Side1Ref(md, rows[i]), Side2Ref(md, rows[i])) == links[i];
    }
    if after != [] {
      PurgeMembership(md, links, rows, after[0]);
      assert false;
    }
  }

  /** A second purge right after a successful one deletes nothing: it sends the
      query alone. */
  lemma PurgeIdempotent(md: ManyToManyMetadata, links: seq<Link>)
    requires Consistent(md, links)
    ensures PurgePlan(md, Replay(links, PurgePlan(md, links))) == [RetrieveMultiple(PurgeQuery(md))]
  {
    PurgeClears(md, links);
  }

  /** The promise of the manager's doc comment: when every request of a batch
      succeeds on a table consistent with the relationship, the table ends up
      holding exactly the links the records describe, whatever it held before. */
  lemma PlanEndState(catalog: map<string, RelationshipMetadata>, records: seq<Entity>, links: seq<Link>)
    requires |records| > 0 && IsManyToMany(catalog, records[0].logicalName)
    requires Consistent(catalog[records[0].logicalName].manyToMany, links)
    ensures forall x :: x in Replay(links, Plan(catalog, records, links))
                        <==> x in Desired(catalog[records[0].logicalName].manyToMany, records)
  {
    var name := records[0].logicalName;
    var md := catalog[name].manyToMany;
    var head := [RetrieveRelationship(name)] + PurgePlan(md, links);
    var create := CreateRequests(md, records);
    assert Plan(catalog, records, links) == head + create;
    ReplayAppend(links, head, create);
    ReplayAppend(links, [RetrieveRelationship(name)], PurgePlan(md, links));
    assert Replay(links, [RetrieveRelationship(name)]) == links by {
      assert [RetrieveRelationship(name)][..0] == [];
    }
    PurgeClears(md, links);
    forall x ensures x in Replay([], create) <==> x in Desired(md, records) {
      CreateMembership(md, [], records, x);
    }
  }

  // ---------------------------------------------------------------------------
  // The manager's operations, sending requests through the fake service

  lemma {:induction false} PurgeRequestsPrefix(md: ManyToManyMetadata, rows: seq<Entity>, i: nat)
    requires i <= |rows|
    ensures PurgeRequests(md, rows[..i]) <= PurgeRequests(md, rows)
    decreases |rows|
  {
    if i < |rows| {
      var init := rows[..|rows| - 1];
      assert rows[..i] == init[..i];
      PurgeRequestsPrefix(md, init, i);
    } else {
      assert rows[..i] == rows;
    }
  }

  lemma {:induction false} CreateRequestsPrefix(md: ManyToManyMetadata, records: seq<Entity>, i: nat)
    requires i <= |records|
    ensures CreateRequests(md, records[..i]) <= CreateRequests(md, records)
    decreases |records|
  {
    if i < |records| {
      var init := records[..|records| - 1];
      assert records[..i] == init[..i];
      CreateRequestsPrefix(md, init, i);
    } else {
      assert records[..i] == records;
    }
  }

  /** One row of the purge: its two disassociations extend what was sent for
      the rows before it, within the purge's plan. */
  lemma PurgeStep(md: ManyToManyMetadata, rows: seq<Entity>, i: nat)
    requires i < |rows|
    ensures PurgeRequests(md, rows[..i]) + RowRequests(md, rows[i]) == PurgeRequests(md, rows[..i + 1])
    ensures PurgeRequests(md, rows[..i]) + RowRequests(md, rows[i]) <= PurgeRequests(md, rows)
  {
    assert rows[..i + 1][..i] == rows[..i];
    PurgeRequestsPrefix(md, rows, i + 1);
  }

  /** One association of the creation loop extends what was sent for the
      records before it, within the batch's plan. */
  lemma CreateStep(md: ManyToManyMetadata, records: seq<Entity>, i: nat)
    requires i < |records|
    ensures var a := AssociateRequest(md, Side1Ref(md, records[i]), Side2Ref(md, records[i]));
      && CreateRequests(md, records[..i]) + [a] == CreateRequests(md, records[..i + 1])
      && CreateRequests(md, records[..i]) + [a] <= CreateRequests(md, records)
  {
    assert records[..i + 1][..i] == records[..i];
    CreateRequestsPrefix(md, records, i + 1);
  }

  /** `getRelationshipMetaDataFromRecord`: one lookup named by the record's
      logical name; its answer is cast to the many-to-many shape. */
  method GetRelationshipMetadataFromRecord(record: Entity, svc: OrganizationService)
    returns (r: Result<ManyToManyMetadata>)
    modifies svc
    ensures svc.trace == old(svc.trace) + [RetrieveRelationship(record.logicalName)]
    ensures svc.links == old(svc.links)
    ensures r == Lookup(svc.platform, record.logicalName)
  {
    var req := RetrieveRelationship(record.logicalName);
    var resp := svc.Execute(req);
    if resp.Faulted? {
      return Failure(RequestFailed(req));
    }
    match resp.relationshipMetadata
    case ManyToMany(m) => r := Success(m);
    case OneToMany(_, _, _) => r := Failure(InvalidCast(record.logicalName));
  }

  /** One iteration of the purge loop: for the row's side-1 and side-2
      references, disassociate side 1 from side 2 and then side 2 from side 1,
      each tagged `Referenced` when both sides are the same entity; stop at the
      first failure. */
  method DisassociateRow(md: ManyToManyMetadata, row: Entity, svc: OrganizationService)
    returns (fault: Option<Fault>)
    modifies svc
    ensures Ran(svc.platform, RowRequests(md, row), old(svc.trace), old(svc.links),
                svc.trace, svc.links, fault.Some?)
    ensures fault.Some? ==> svc.trace != [] && fault.value == RequestFailed(svc.trace[|svc.trace| - 1])
  {
    ghost var t0, l0 := svc.trace, svc.links;
    var entity1 := EntityRef(md.entity1LogicalName, GetGuid(row, md.entity1IntersectAttribute));
    var entity2 := EntityRef(md.entity2LogicalName, GetGuid(row, md.entity2IntersectAttribute));

    var relationship := Relationship(md.schemaName, None);
    if entity1.logicalName == entity2.logicalName {
      relationship := relationship.(primaryEntityRole := Some(Referenced));
    }
    var req := Disassociate(relationship, entity1, entity2);
    var resp := svc.Execute(req);
    RanOne(svc.platform, req, t0, l0, svc.trace, svc.links);
    assert RowRequests(md, row) == [req] + RowRequests(md, row)[1..];
    if resp.Faulted? {
      RanStop(svc.platform, [req], RowRequests(md, row), t0, l0, svc.trace, svc.links);
      return Some(RequestFailed(req));
    }
    ghost var t1, l1, first := svc.trace, svc.links, req;

    relationship := Relationship(md.schemaName, None);
    if entity1.logicalName == entity2.logicalName {
      relationship := relationship.(primaryEntityRole := Some(Referenced));
    }
    req := Disassociate(relationship, entity2, entity1);
    resp := svc.Execute(req);
    RanOne(svc.platform, req, t1, l1, svc.trace, svc.links);
    assert RowRequests(md, row) == [first] + [req];
    RanThen(svc.platform, [first], [req], t0, l0, t1, l1, svc.trace, svc.links, resp.Faulted?);
    if resp.Faulted? {
      return Some(RequestFailed(req));
    }
    return None;
  }

  /** The loop of the purge over the returned rows: what it sends is
      `PurgeRequests` up to the first failure; the table takes the effect of
      every request that succeeded. */
  method DisassociateRows(md: ManyToManyMetadata, rows: seq<Entity>, svc: OrganizationService)
    returns (fault: Option<Fault>)
    modifies svc
    ensures Ran(svc.platform, PurgeRequests(md, rows), old(svc.trace), old(svc.links),
                svc.trace, svc.links, fault.Some?)
    ensures fault.Some? ==> svc.trace != [] && fault.value == RequestFailed(svc.trace[|svc.trace| - 1])
  {
    ghost var t0, l0 := svc.trace, svc.links;
    assert rows[..0] == [];
    RanNothing(svc.platform, t0, l0);
    var i := 0;
    while i < |rows|
      invariant 0 <= i <= |rows|
      invariant Ran(svc.platform, PurgeRequests(md, rows[..i]), t0, l0, svc.trace, svc.links, false)
    {
      PurgeStep(md, rows, i);
      ghost var t1, l1 := svc.trace, svc.links;
      fault := DisassociateRow(md, rows[i], svc);
      RanThen(svc.platform, PurgeRequests(md, rows[..i]), RowRequests(md, rows[i]),
              t0, l0, t1, l1, svc.trace, svc.links, fault.Some?);
      if fault.Some? {
        RanStop(svc.platform, PurgeRequests(md, rows[..i]) + RowRequests(md, rows[i]), PurgeRequests(md, rows),
                t0, l0, svc.trace, svc.links);
        return;
      }
      i := i + 1;
    }
    assert rows[..i] == rows;
    return None;
  }

  /** `purgeExistingRelationships`: query the intersect table for its two
      intersect attributes, then disassociate every returned row in both
      directions. What it sends is `PurgePlan` up to the first failure; the
      table takes the effect of every request that succeeded. */
  method PurgeExistingRelationships(md: ManyToManyMetadata, svc: OrganizationService)
    returns (fault: Option<Fault>)
    modifies svc
    ensures Ran(svc.platform, PurgePlan(md, old(svc.links)), old(svc.trace), old(svc.links),
                svc.trace, svc.links, fault.Some?)
    ensures fault.Some? ==> svc.trace != [] && fault.value == RequestFailed(svc.trace[|svc.trace| - 1])
  {
    ghost var t0, l0 := svc.trace, svc.links;
    var q := Query(md.intersectEntityName, [md.entity1IntersectAttribute, md.entity2IntersectAttribute]);
    var resp := svc.Execute(RetrieveMultiple(q));
    RanOne(svc.platform, RetrieveMultiple(q), t0, l0, svc.trace, svc.links);
    if resp.Faulted? {
      RanStop(svc.platform, [RetrieveMultiple(q)], PurgePlan(md, l0), t0, l0, svc.trace, svc.links);
      return Some(RequestFailed(RetrieveMultiple(q)));
    }
    var rows := resp.entities;
    ghost var t1 := svc.trace;
    fault := DisassociateRows(md, rows, svc);
    RanThen(svc.platform, [RetrieveMultiple(q)], PurgeRequests(md, rows), t0, l0, t1, l0,
            svc.trace, svc.links, fault.Some?);
  }

  /** One iteration of the creation loop: associate the record's side-1
      reference with its side-2 reference, tagged `Referenced` when both sides
      are the same entity. */
  method AssociateRecord(md: ManyToManyMetadata, record: Entity, svc: OrganizationService)
    returns (fault: Option<Fault>)
    modifies svc
    ensures Ran(svc.platform, [AssociateRequest(md, Side1Ref(md, record), Side2Ref(md, record))],
                old(svc.trace), old(svc.links), svc.trace, svc.links, fault.Some?)
    ensures fault.Some? ==> svc.trace != [] && fault.value == RequestFailed(svc.trace[|svc.trace| - 1])
  {
    ghost var t0, l0 := svc.trace, svc.links;
    var entity1 := EntityRef(md.entity1LogicalName, GetGuid(record, md.entity1IntersectAttribute));
    var entity2 := EntityRef(md.entity2LogicalName, GetGuid(record, md.entity2IntersectAttribute));

    var relationship := Relationship(md.schemaName, None);
    if entity1.logicalName == entity2.logicalName {
      relationship := relationship.(primaryEntityRole := Some(Referenced));
    }
    var req := Associate(relationship, entity1, entity2);
    var resp := svc.Execute(req);
    RanOne(svc.platform, req, t0, l0, svc.trace, svc.links);
    if resp.Faulted? {
      return Some(RequestFailed(req));
    }
    return None;
  }

  /** The creation loop: one association per record, in order. What it sends
      is `CreateRequests` up to the first failure; the table takes the effect
      of every request that succeeded. */
  method AssociateRecords(md: ManyToManyMetadata, records: seq<Entity>, svc: OrganizationService)
    returns (fault: Option<Fault>)
    modifies svc
    ensures Ran(svc.platform, CreateRequests(md, records), old(svc.trace), old(svc.links),
                svc.trace, svc.links, fault.Some?)
    ensures fault.Some? ==> svc.trace != [] && fault.value == RequestFailed(svc.trace[|svc.trace| - 1])
  {
    ghost var t0, l0 := svc.trace, svc.links;
    assert records[..0] == [];
    RanNothing(svc.platform, t0, l0);
    var i := 0;
    while i < |records|
      invariant 0 <= i <= |records|
      invariant Ran(svc.platform, CreateRequests(md, records[..i]), t0, l0, svc.trace, svc.links, false)
    {
      CreateStep(md, records, i);
      ghost var t1, l1 := svc.trace, svc.links;
      ghost var a := AssociateRequest(md, Side1Ref(md, records[i]), Side2Ref(md, records[i]));
      fault := AssociateRecord(md, records[i], svc);
      RanThen(svc.platform, CreateRequests(md, records[..i]), [a], t0, l0, t1, l1,
              svc.trace, svc.links, fault.Some?);
      if fault.Some? {
        RanStop(svc.platform, CreateRequests(md, records[..i]) + [a], CreateRequests(md, records),
                t0, l0, svc.trace, svc.links);
        return;
      }
      i := i + 1;
    }
    assert records[..i] == records;
    return None;
  }

  /** The body of `CreateRelationships` once the metadata is known: the
      purge, then the creation loop, stopping at the first failure. */
  method PurgeThenAssociate(md: ManyToManyMetadata, records: seq<Entity>, svc: OrganizationService)
    returns (fault: Option<Fault>)
    modifies svc
    ensures Ran(svc.platform, PurgePlan(md, old(svc.links)) + CreateRequests(md, records),
                old(svc.trace), old(svc.links), svc.trace, svc.links, fault.Some?)
    ensures fault.Some? ==> svc.trace != [] && fault.value == RequestFailed(svc.trace[|svc.trace| - 1])
  {
    ghost var t0, l0 := svc.trace, svc.links;
    fault := PurgeExistingRelationships(md, svc);
    if fault.Some? {
      RanStop(svc.platform, PurgePlan(md, l0), PurgePlan(md, l0) + CreateRequests(md, records),
              t0, l0, svc.trace, svc.links);
      return;
    }
    ghost var t1, l1 := svc.trace, svc.links;
    fault := AssociateRecords(md, records, svc);
    RanThen(svc.platform, PurgePlan(md, l0), CreateRequests(md, records), t0, l0, t1, l1,
            svc.trace, svc.links, fault.Some?);
  }

  /** `CreateRelationships`: nothing at all for an empty batch; otherwise look
      the relationship up by the first record's logical name, purge it, and
      associate side 1 with side 2 for every record in order. What it sends is
      `Plan` up to the first failure (nothing is caught and nothing is undone);
      the table takes the effect of every request that succeeded. */
  method CreateRelationships(records: seq<Entity>, svc: OrganizationService) returns (outcome: Outcome)
    modifies svc
    ensures Ran(svc.platform, Plan(svc.platform.catalog, records, old(svc.links)),
                old(svc.trace), old(svc.links), svc.trace, svc.links,
                outcome.Stopped? && outcome.fault.RequestFailed?)
    ensures outcome.Stopped? && outcome.fault.RequestFailed? ==>
      svc.trace != [] && outcome.fault.request == svc.trace[|svc.trace| - 1]
    ensures |records| == 0 ==>
      outcome == Completed && svc.trace == old(svc.trace) && svc.links == old(svc.links)
    ensures outcome.Stopped? && outcome.fault.InvalidCast? <==>
      && |records| > 0
      && !svc.platform.Fails(RetrieveRelationship(records[0].logicalName))
      && svc.platform.catalog[records[0].logicalName].OneToMany?
    ensures outcome.Stopped? && outcome.fault.InvalidCast? ==>
      && outcome.fault == InvalidCast(records[0].logicalName)
      && svc.trace == old(svc.trace) + [RetrieveRelationship(records[0].logicalName)]
      && svc.links == old(svc.links)
    ensures outcome == Completed && |records| > 0 ==>
      var name := records[0].logicalName;
      && IsManyToMany(svc.platform.catalog, name)
      && (Consistent(svc.platform.catalog[name].manyToMany, old(svc.links)) ==>
            forall x :: x in svc.links <==> x in Desired(svc.platform.catalog[name].manyToMany, records))
  {
    ghost var t0, l0 := svc.trace, svc.links;
    ghost var p := svc.platform;
    if |records| == 0 {
      RanNothing(p, t0, l0);
      return Completed;
    }

    var lookup := GetRelationshipMetadataFromRecord(records[0], svc);
    ghost var rr := RetrieveRelationship(records[0].logicalName);
    RanOne(p, rr, t0, l0, svc.trace, svc.links);
    if lookup.Failure? {
      if p.Fails(rr) {
        RanStop(p, [rr], Plan(p.catalog, records, l0), t0, l0, svc.trace, svc.links);
      } else {
        assert Plan(p.catalog, records, l0) == [rr];
      }
      return Stopped(lookup.error);
    }
    var md := lookup.value;
    ghost var rest := PurgePlan(md, l0) + CreateRequests(md, records);
    assert Plan(p.catalog, records, l0) == [rr] + rest;

    ghost var t1 := svc.trace;
    var fault := PurgeThenAssociate(md, records, svc);
    RanThen(p, [rr], rest, t0, l0, t1, l0, svc.trace, svc.links, fault.Some?);
    if fault.Some? {
      return Stopped(fault.value);
    }
    if Consistent(md, l0) {
      PlanEndState(p.catalog, records, l0);
    }
    return Completed;
  }
}
