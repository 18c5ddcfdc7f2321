/** The durable hand-off between Silver commits and Gold publication (`GoldReconcileQueue`). */
module ReconcileQueue {
  import opened Prelude

  /** `all-orders`, `metadata-only` or `order:<id>`. */
  datatype Scope = AllOrders | MetadataOnly | OrderScope(id: int)

  type RowKey = (string, Scope)

  datatype Status = Pending | Published

  datatype QueueRow = QueueRow(orderId: Option<int>, requiresReadiness: bool, status: Status)

  /** The rows one request writes: one per positive order id; every order when the ids are unknown or malformed. */
  function ScopesOf(affected: Option<set<int>>): set<Scope> {
    if affected == None || exists id :: id in affected.value && id <= 0 then {AllOrders}
    else if affected.value == {} then {MetadataOnly}
    else set id | id in affected.value :: OrderScope(id)
  }

  function RowOf(scope: Scope, requiresReadiness: bool): QueueRow {
    QueueRow(if scope.OrderScope? then Some(scope.id) else None, requiresReadiness, Pending)
  }

  function PendingKeys(rows: map<RowKey, QueueRow>): set<RowKey> { set k | k in rows && rows[k].status == Pending }

  /** What `pending` hands to the reconciler. */
  datatype PendingScope = PendingScope(keys: set<RowKey>, affected: Option<set<int>>, requiresReadiness: bool)

  class GoldReconcileQueue {
    var rows: map<RowKey, QueueRow>

    constructor ()
      ensures rows == map[]
    {
      rows := map[];
    }

    /** Upsert one pending row per scope; repeating a request makes its rows pending again. */
    method Enqueue(request: string, affected: Option<set<int>>, requiresReadiness: bool)
      modifies this
      ensures forall k :: k in rows <==> k in old(rows) || (k.0 == request && k.1 in ScopesOf(affected))
      ensures forall k :: k in rows ==>
                rows[k] ==
                if k.0 == request && k.1 in ScopesOf(affected)
                then QueueRow(if k.1.OrderScope? then Some(k.1.id) else None, requiresReadiness, Pending)
                else old(rows)[k]
    {
      var scopes: set<Scope>;
      if affected == None {
        scopes := {AllOrders};
      } else {
        var ids := affected.value;
        var valid := set id | id in ids && id > 0;
        var invalid := ids - valid;
        assert forall id :: id in ids && id <= 0 <==> id in invalid;
        if invalid != {} {
          assert exists id :: id in invalid;
          scopes := {AllOrders};
        } else {
          assert valid == ids;
          scopes := if valid != {} then set id | id in valid :: OrderScope(id) else {MetadataOnly};
        }
      }
      assert scopes == ScopesOf(affected);
      rows := rows + (map scope | scope in scopes :: (request, scope) := RowOf(scope, requiresReadiness));
    }

    /** Up to `maxOrderIds + 1` pending rows, in whatever order the table returns them. */
    method TakePending(maxOrderIds: nat) returns (scope: Option<PendingScope>)
      ensures scope == None <==> PendingKeys(rows) == {}
      ensures scope.Some? ==> scope.value.keys != {} && scope.value.keys <= PendingKeys(rows)
      ensures scope.Some? ==> |scope.value.keys| == Min(maxOrderIds + 1, |PendingKeys(rows)|)
      ensures scope.Some? ==>
                scope.value.requiresReadiness
                == exists k :: k in scope.value.keys && rows[k].requiresReadiness
      ensures scope.Some? ==>
                (scope.value.affected == None <==>
                 (exists k :: k in scope.value.keys && k.1 == AllOrders) || |PendingKeys(rows)| > maxOrderIds)
      ensures scope.Some? && scope.value.affected.Some? ==>
                scope.value.keys == PendingKeys(rows)
                && scope.value.affected.value == set k | k in scope.value.keys && rows[k].orderId.Some?
                  && rows[k].orderId.value > 0 :: rows[k].orderId.value
    {
      var remaining := set k | k in rows && rows[k].status == Pending;
      var keys: set<RowKey> := {};
      while remaining != {} && |keys| < maxOrderIds + 1
        invariant keys + remaining == PendingKeys(rows) && keys !! remaining
        invariant |keys| <= maxOrderIds + 1
        decreases |remaining|
      {
        var k :| k in remaining;
        keys, remaining := keys + {k}, remaining - {k};
      }
      if keys == {} {
        return None;
      }
      SubsetSize(keys, PendingKeys(rows));
      var requiresReadiness := exists k | k in keys :: rows[k].requiresReadiness;
      var fullScope := (exists k | k in keys :: k.1 == AllOrders) || |keys| > maxOrderIds;
      var ids := set k | k in keys && rows[k].orderId.Some? && rows[k].orderId.value > 0 :: rows[k].orderId.value;
      scope := Some(PendingScope(keys, if fullScope then None else Some(ids), requiresReadiness));
    }

    /** Exactly the given rows become published. */
    method Complete(keys: set<RowKey>)
      modifies this
      ensures rows.Keys == old(rows).Keys
      ensures forall k :: k in rows ==>
                rows[k] == if k in keys then old(rows)[k].(status := Published) else old(rows)[k]
    {
      if keys == {} {
        return;
      }
      var completed := map k | k in keys && k in rows :: rows[k].(status := Published);
      rows := rows + completed;
    }
  }
}
