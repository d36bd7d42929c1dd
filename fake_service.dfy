/** A fake organization service standing in for the remote platform.

    Its behaviour is an explicit assumption, not the platform's real semantics:
    - a relationship lookup answers from a fixed catalog and fails for a name
      the catalog does not hold;
    - every request in the fixed set `rejects` fails; nothing else fails;
    - the intersect table of the one relationship under test is a sequence of
      links in storage order; a query answers one row per stored link with the
      target id under the first projected column and the related id under
      the second;
    - a successful associate adds its link unless already present, a
      successful disassociate removes every copy of its link (so removing a
      missing link is a no-op);
    - a failed request still appears in the trace but changes nothing. */
module FakeService {
  import opened Sdk

  /** One row of the intersect table, as (target, related). */
  datatype Link = Link(target: EntityRef, related: EntityRef)

  /** `links` with every copy of `x` removed, order otherwise kept. */
  function Without(links: seq<Link>, x: Link): (r: seq<Link>)
    ensures forall y :: y in r <==> y in links && y != x
    ensures |r| <= |links|
  {
    if links == [] then []
    else if links[0] == x then Without(links[1..], x)
    else [links[0]] + Without(links[1..], x)
  }

  /** The change a successful request makes to the intersect table. */
  function Effect(links: seq<Link>, req: Request): seq<Link>
  {
    match req
    case Associate(_, t, r) => if Link(t, r) in links then links else links + [Link(t, r)]
    case Disassociate(_, t, r) => Without(links, Link(t, r))
    case _ => links
  }

  /** The intersect table after the successful requests `reqs`, in order. */
  function Replay(links: seq<Link>, reqs: seq<Request>): seq<Link>
    decreases |reqs|
  {
    if reqs == [] then links
    else Effect(Replay(links, reqs[..|reqs| - 1]), reqs[|reqs| - 1])
  }

  /** The row the query `q` answers for the stored link `l`. */
  function RowOf(q: Query, l: Link): Entity
  {
    Entity(q.entityName,
      if |q.columns| == 2 then map[q.columns[0] := l.target.id, q.columns[1] := l.related.id]
      else map[])
  }

  /** The answer to `RetrieveMultiple(q)`: one row per stored link, in storage order. */
  function Rows(q: Query, links: seq<Link>): (rows: seq<Entity>)
  {
    seq(|links|, i requires 0 <= i < |links| => RowOf(q, links[i]))
  }

  /** What the platform knows and which requests it refuses. */
  datatype Platform = Platform(catalog: map<string, RelationshipMetadata>, rejects: set<Request>)
  {
    predicate Fails(req: Request)
    {
      req in rejects || (req.RetrieveRelationship? && req.name !in catalog)
    }

    function Answer(req: Request, links: seq<Link>): Response
      requires !Fails(req)
    {
      match req
      case RetrieveRelationship(name) => RelationshipResponse(catalog[name])
      case RetrieveMultiple(q) => EntityCollection(Rows(q, links))
      case _ => Acknowledged
    }

    predicate AllSucceed(reqs: seq<Request>)
    {
      forall r | r in reqs :: !Fails(r)
    }

    /** `issued` is what a caller that sends `plan` one request at a time and
        stops at the first failure sends: a prefix of `plan` in which every
        request succeeded except, when `failed`, the last one; and all of
        `plan` when nothing failed. */
    predicate Issued(plan: seq<Request>, issued: seq<Request>, failed: bool)
    {
      && issued <= plan
      && if failed then |issued| > 0 && Fails(issued[|issued| - 1]) && AllSucceed(issued[..|issued| - 1])
         else issued == plan && AllSucceed(issued)
    }
  }

  /** Within what was issued, exactly the last request failed when the run
      failed, and none did otherwise. */
  lemma IssuedFailures(p: Platform, plan: seq<Request>, issued: seq<Request>, failed: bool)
    requires p.Issued(plan, issued, failed)
    ensures forall j | 0 <= j < |issued| :: p.Fails(issued[j]) <==> failed && j == |issued| - 1
  {
    forall j | 0 <= j < |issued| ensures p.Fails(issued[j]) <==> failed && j == |issued| - 1 {
      if failed && j < |issued| - 1 {
        assert issued[j] in issued[..|issued| - 1];
      }
    }
  }

  /** Stopping at the first failure leaves no choice: a plan sent on a given
      platform has exactly one possible trace and verdict. */
  lemma IssuedDeterministic(p: Platform, plan: seq<Request>, issued1: seq<Request>, failed1: bool,
                            issued2: seq<Request>, failed2: bool)
    requires p.Issued(plan, issued1, failed1) && p.Issued(plan, issued2, failed2)
    ensures issued1 == issued2 && failed1 == failed2
  {
    IssuedFailures(p, plan, issued1, failed1);
    IssuedFailures(p, plan, issued2, failed2);
    forall j | 0 <= j < |issued1| && j < |issued2| ensures issued1[j] == issued2[j] {
      assert issued1[j] == plan[j] == issued2[j];
    }
    if |issued1| != |issued2| {
      assert false;
    }
    assert issued1 == plan[..|issued1|] == issued2;
  }

  /** The requests of `issued` that succeeded. */
  function Succeeded(issued: seq<Request>, failed: bool): seq<Request>
    requires failed ==> |issued| > 0
  {
    if failed then issued[..|issued| - 1] else issued
  }

  lemma ReplaySnoc(links: seq<Link>, reqs: seq<Request>, req: Request)
    ensures Replay(links, reqs + [req]) == Effect(Replay(links, reqs), req)
  {
    assert (reqs + [req])[..|reqs|] == reqs;
  }

  lemma {:induction false} ReplayAppend(links: seq<Link>, a: seq<Request>, b: seq<Request>)
    ensures Replay(links, a + b) == Replay(Replay(links, a), b)
    decreases |b|
  {
    if b == [] {
      assert a + b == a;
    } else {
      var b' := b[..|b| - 1];
      assert (a + b)[..|a + b| - 1] == a + b';
      ReplayAppend(links, a, b');
    }
  }

  /** A caller that started from trace `t0` and table `l0` sent `plan` one
      request at a time up to its first failure (if `failed`) or to its end:
      the trace grew by exactly that, and the table took the effect of every
      request that succeeded, and of nothing else. */
  predicate Ran(p: Platform, plan: seq<Request>, t0: seq<Request>, l0: seq<Link>,
                t: seq<Request>, links: seq<Link>, failed: bool)
  {
    && |t0| <= |t| && t[..|t0|] == t0
    && p.Issued(plan, t[|t0|..], failed)
    && links == Replay(l0, Succeeded(t[|t0|..], failed))
  }

  /** Nothing sent yet. */
  lemma RanNothing(p: Platform, t0: seq<Request>, l0: seq<Link>)
    ensures Ran(p, [], t0, l0, t0, l0, false)
  {
    assert t0[|t0|..] == [];
  }

  /** One request sent. */
  lemma RanOne(p: Platform, req: Request, t0: seq<Request>, l0: seq<Link>, t: seq<Request>, links: seq<Link>)
    requires t == t0 + [req]
    requires links == if p.Fails(req) then l0 else Effect(l0, req)
    ensures Ran(p, [req], t0, l0, t, links, p.Fails(req))
  {
    assert t[|t0|..] == [req];
    assert [req][..0] == [];
    ReplaySnoc(l0, [], req);
  }

  /** Two parts of a plan sent one after the other, the first without failure. */
  lemma RanThen(p: Platform, first: seq<Request>, second: seq<Request>,
                t0: seq<Request>, l0: seq<Link>, t1: seq<Request>, l1: seq<Link>,
                t: seq<Request>, links: seq<Link>, failed: bool)
    requires Ran(p, first, t0, l0, t1, l1, false)
    requires Ran(p, second, t1, l1, t, links, failed)
    ensures Ran(p, first + second, t0, l0, t, links, failed)
  {
    var sent1, sent2 := t1[|t0|..], t[|t1|..];
    assert sent1 == first;
    assert t == t0 + (first + sent2) by {
      assert t == t1 + sent2;
    }
    assert t[|t0|..] == first + sent2;
    IssuedConcat(p, first, second, sent2, failed);
    ReplayAppend(l0, first, Succeeded(sent2, failed));
    if failed {
      assert (first + sent2)[..|first + sent2| - 1] == first + sent2[..|sent2| - 1];
    }
  }

  /** A run that stopped at a failure within a prefix of a plan stopped there
      within the whole plan. */
  lemma RanStop(p: Platform, prefix: seq<Request>, plan: seq<Request>,
                t0: seq<Request>, l0: seq<Link>, t: seq<Request>, links: seq<Link>)
    requires prefix <= plan
    requires Ran(p, prefix, t0, l0, t, links, true)
    ensures Ran(p, plan, t0, l0, t, links, true)
  {
  }

  /** Sending two plans back to back: the first ran through without failure. */
  lemma IssuedConcat(p: Platform, plan1: seq<Request>, plan2: seq<Request>, issued2: seq<Request>, failed: bool)
    requires p.AllSucceed(plan1)
    requires p.Issued(plan2, issued2, failed)
    ensures p.Issued(plan1 + plan2, plan1 + issued2, failed)
  {
    if failed {
      assert (plan1 + issued2)[..|plan1 + issued2| - 1] == plan1 + issued2[..|issued2| - 1];
    }
    assert issued2 == (plan1 + plan2)[|plan1|..|plan1| + |issued2|];
    assert plan1 + issued2 == (plan1 + plan2)[..|plan1| + |issued2|];
  }

  /** The fake service: a fixed platform, the intersect table it holds and the
      trace of every request issued to it, in order. */
  class OrganizationService {
    const platform: Platform
    var links: seq<Link>
    var trace: seq<Request>

    constructor (platform: Platform, links: seq<Link>)
      ensures this.platform == platform && this.links == links && trace == []
    {
      this.platform := platform;
      this.links := links;
      trace := [];
    }

    /** `IOrganizationService.Execute` (and `RetrieveMultiple`): the request is
        recorded; if it fails the answer is `Faulted` and the table is left
        as it was, otherwise the table takes the request's effect. */
    method Execute(req: Request) returns (resp: Response)
      modifies this
      ensures trace == old(trace) + [req]
      ensures platform.Fails(req) ==> resp == Faulted && links == old(links)
      ensures !platform.Fails(req) ==>
                resp == platform.Answer(req, old(links)) && links == Effect(old(links), req)
    {
      trace := trace + [req];
      if platform.Fails(req) {
        resp := Faulted;
      } else {
        resp := platform.Answer(req, links);
        links := Effect(links, req);
      }
    }
  }
}
