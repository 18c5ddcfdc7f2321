/**
 A reconciliation cycle seen from both sides: the queue and the release of the publication protocol, and the facts of
 the incremental builder that runs inside it.
 */
module ReconciledFacts {
  import opened Prelude
  import G = GoldMaintenance
  import P = Publication
  import opened ReconcileQueue

  /** The protocol's versions of the fact sources are the builder's. */
  ghost predicate SameVersions(named: map<string, nat>, versions: G.Versions) {
    && {"orders", "order_items", "order_vouchers", "payments", "shipments", "vouchers"} <= named.Keys
    && (forall t: G.TableName :: t in versions)
    && named["orders"] == versions[G.Orders] && named["order_items"] == versions[G.OrderItems]
    && named["order_vouchers"] == versions[G.OrderVouchers] && named["payments"] == versions[G.Payments]
    && named["shipments"] == versions[G.Shipments] && named["vouchers"] == versions[G.Vouchers]
  }

  /** Both sides speak of the same Silver and the same release. */
  ghost predicate Mirrors(p: P.Pipeline, b: G.GoldBuilder)
    reads p, p.store, b
  {
    && SameVersions(p.silver, b.progress)
    && (p.store.marker.Some? <==> b.release.Some?)
    && (b.release.Some? ==> SameVersions(p.store.marker.value.silver, b.release.value))
  }

  /** fact_sales is the full recomputation from current Silver. */
  ghost predicate FactsRight(lake: G.Lake, facts: G.Facts)
    requires lake.Valid()
  {
    forall o, i :: G.FactAt(facts, o, i) == G.ComputedAt(lake, o, i)
  }

  /**
   One cycle. When it completes, the rows it took are published and fact_sales is the full recomputation from Silver, so
   the facts of every order a completed row names are right. A process that dies may have committed facts without a
   release.
   */
  method Reconcile(p: P.Pipeline, b: G.GoldBuilder, maxOrderIds: nat, sourceReady: bool, candidates: seq<(string, int)>,
                   stop: P.Stop, factsCommitted: bool)
    returns (status: P.ReconcileStatus, ghost keys: set<RowKey>)
    requires p.Valid() && b.Valid() && Mirrors(p, b) && b.phase == G.Idle && p.store.marker.Some?
    requires forall t: G.TableName :: b.progress[t] == |b.lake.logs[t]| - 1
    requires forall c :: c in candidates ==> c.0 in p.store.logs
    modifies p.queue, p.store, b`facts, b`phase, b`release
    ensures p.Valid() && b.Valid() && Mirrors(p, b) && b.phase == G.Idle
    ensures status == P.Ran(P.Completed) ==>
              FactsRight(b.lake, b.facts) && forall k :: k in keys ==>
                k in p.queue.rows && p.queue.rows[k].status == Published
    ensures status != P.Ran(P.Completed) ==> p.queue.rows == old(p.queue.rows) && b.release == old(b.release)
  {
    status, keys := p.Reconcile(maxOrderIds, sourceReady, candidates, stop);
    MaintainFacts(b, status == P.Ran(P.Completed), status == P.Ran(P.Died) && factsCommitted);
  }

  /** The builder's part of the cycle. */
  method MaintainFacts(b: G.GoldBuilder, completes: bool, diesAfterFacts: bool)
    requires b.Valid() && b.phase == G.Idle && b.release.Some?
    requires forall t: G.TableName :: b.progress[t] == |b.lake.logs[t]| - 1
    modifies b`facts, b`phase, b`release
    ensures b.Valid() && b.phase == G.Idle
    ensures if completes then b.release == Some(b.progress) && FactsRight(b.lake, b.facts)
            else b.release == old(b.release)
  {
    if completes {
      var accepted := b.Begin(None);
      var rebuilt := b.RebuildAffected(false);
      b.Publish();
      b.CaughtUp();
    } else if diesAfterFacts {
      var accepted := b.Begin(None);
      var rebuilt := b.RebuildAffected(false);
      b.Crash();
    }
  }
}
