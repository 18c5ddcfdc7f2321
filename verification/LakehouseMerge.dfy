/**
 The Delta adapter's guarded MERGE (`upsert_table`): the SQL predicate that decides whether a source row is newer,
 the list of clauses built from the call's options, and what one MERGE does to a table.
 */
module LakehouseMerge {
  import opened Prelude

  type Row = map<string, Option<int>>
  type Key = seq<Option<int>>

  function Col(row: Row, c: string): Option<int> { if c in row then row[c] else None }

  function Cols(row: Row, columns: seq<string>): seq<Option<int>> {
    seq(|columns|, i requires 0 <= i < |columns| => Col(row, columns[i]))
  }

  // ---------------------------------------------------------------- SQL with three truth values

  datatype Truth = True | False | Unknown

  function And3(a: Truth, b: Truth): Truth {
    if a == False || b == False then False else if a == Unknown || b == Unknown then Unknown else True
  }

  function Not3(a: Truth): Truth { match a case True => False case False => True case Unknown => Unknown }

  function Or3(a: Truth, b: Truth): Truth { Not3(And3(Not3(a), Not3(b))) }

  function Known(b: bool): Truth { if b then True else False }

  datatype Sql =
    | SourceNotNull(c: string)
    | TargetNull(c: string)
    | SourceGreater(c: string)
    | NullSafeEqual(c: string)
    | DeleteMark                // source.`_delete`
    | SourceDeleted             // source.`_is_deleted` = true
    | SourceActive              // NOT coalesce(source.`_is_deleted`, false)
    | SameColumns(columns: set<string>)
    | Not(a: Sql)
    | And(a: Sql, b: Sql)
    | Or(a: Sql, b: Sql)

  /** A source row of the MERGE; `delete` is the marker column added when delete keys are given. */
  datatype Change = Change(row: Row, delete: bool)

  function Eval(e: Sql, source: Change, target: Row): Truth {
    match e
    case SourceNotNull(c) => Known(Col(source.row, c).Some?)
    case TargetNull(c) => Known(Col(target, c) == None)
    case SourceGreater(c) =>
      if Col(source.row, c).Some? && Col(target, c).Some? then Known(Col(source.row, c).value > Col(target, c).value)
        else Unknown
    case NullSafeEqual(c) => Known(Col(source.row, c) == Col(target, c))
    case DeleteMark => Known(source.delete)
    case SourceDeleted => if Col(source.row, "_is_deleted") == None then Unknown
      else Known(Col(source.row, "_is_deleted") == Some(1))
    case SourceActive => Known(Col(source.row, "_is_deleted") != Some(1))
    case SameColumns(columns) => Known(forall c | c in columns :: Col(source.row, c) == Col(target, c))
    case Not(a) => Not3(Eval(a, source, target))
    case And(a, b) => And3(Eval(a, source, target), Eval(b, source, target))
    case Or(a, b) => Or3(Eval(a, source, target), Eval(b, source, target))
  }

  // ---------------------------------------------------------------- newer, lexicographically

  /** `a` is newer than `b` column by column, null being the oldest value. */
  predicate Newer(a: seq<Option<int>>, b: seq<Option<int>>)
    requires |a| == |b|
  {
    a != [] &&
    ((a[0].Some? && (b[0] == None || a[0].value > b[0].value))
     || (a[0] == b[0] && Newer(a[1..], b[1..])))
  }

  /** Newer-first is the nulls-last order on negated values, so it is a strict total order on tuples. */
  function Negated(a: seq<Option<int>>): seq<Option<int>> {
    if a == [] then [] else [if a[0].Some? then Some(-a[0].value) else None] + Negated(a[1..])
  }

  lemma {:induction false} NewerIsOrder(a: seq<Option<int>>, b: seq<Option<int>>)
    requires |a| == |b|
    ensures |Negated(a)| == |a|
    ensures Newer(a, b) <==> TupleLess(Negated(a), Negated(b))
    ensures Negated(a) == Negated(b) <==> a == b
  {
    if a != [] {
      NewerIsOrder(a[1..], b[1..]);
      assert a == [a[0]] + a[1..] && b == [b[0]] + b[1..];
      assert Negated(a)[1..] == Negated(a[1..]) && Negated(b)[1..] == Negated(b[1..]);
    }
  }

  lemma NewerTotal(a: seq<Option<int>>, b: seq<Option<int>>)
    requires |a| == |b|
    ensures Newer(a, b) || Newer(b, a) || a == b
    ensures !(Newer(a, b) && Newer(b, a)) && !Newer(a, a)
  {
    NewerIsOrder(a, b);
    NewerIsOrder(b, a);
    NewerIsOrder(a, a);
    TupleLessTotal(Negated(a), Negated(b));
  }

  lemma NewerTransitive(a: seq<Option<int>>, b: seq<Option<int>>, c: seq<Option<int>>)
    requires |a| == |b| == |c| && Newer(a, b) && Newer(b, c)
    ensures Newer(a, c)
  {
    NewerIsOrder(a, b);
    NewerIsOrder(b, c);
    NewerIsOrder(a, c);
    TupleLessTransitive(Negated(a), Negated(b), Negated(c));
  }

  predicate NewerRow(source: Row, target: Row, sequence: seq<string>) {
    Newer(Cols(source, sequence), Cols(target, sequence))
  }

  function GreaterClause(c: string): Sql { And(SourceNotNull(c), Or(TargetNull(c), SourceGreater(c))) }

  function Conjunction(terms: seq<Sql>): Sql
    requires terms != []
  {
    if |terms| == 1 then terms[0] else And(Conjunction(terms[..|terms| - 1]), terms[|terms| - 1])
  }

  function Disjunction(terms: seq<Sql>): Sql
    requires terms != []
  {
    if |terms| == 1 then terms[0] else Or(Disjunction(terms[..|terms| - 1]), terms[|terms| - 1])
  }

  /** The first `n` columns agree and column `n` is greater: what the `n`-th clause of the predicate tests. */
  ghost predicate DecidesAt(source: Row, target: Row, columns: seq<string>, n: nat)
    requires n < |columns|
  {
    && (forall i :: 0 <= i < n ==> Col(source, columns[i]) == Col(target, columns[i]))
    && Col(source, columns[n]).Some?
    && (Col(target, columns[n]) == None || Col(source, columns[n]).value > Col(target, columns[n]).value)
  }

  lemma {:induction false} NewerDecided(source: Row, target: Row, columns: seq<string>)
    ensures NewerRow(source, target, columns) <==>
              exists n :: 0 <= n < |columns| && DecidesAt(source, target, columns, n)
  {
    if columns != [] {
      var rest := columns[1..];
      NewerDecided(source, target, rest);
      assert Cols(source, columns)[1..] == Cols(source, rest) && Cols(target, columns)[1..] == Cols(target, rest);
      var same := Col(source, columns[0]) == Col(target, columns[0]);
      if same && exists n :: 0 <= n < |rest| && DecidesAt(source, target, rest, n) {
        var n :| 0 <= n < |rest| && DecidesAt(source, target, rest, n);
        forall i | 0 <= i < n + 1 ensures Col(source, columns[i]) == Col(target, columns[i]) {
          assert i > 0 ==> columns[i] == rest[i - 1];
        }
        assert DecidesAt(source, target, columns, n + 1);
      }
      if n :| 0 < n < |columns| && DecidesAt(source, target, columns, n) {
        assert forall i :: 0 <= i < n - 1 ==> rest[i] == columns[i + 1];
        assert DecidesAt(source, target, rest, n - 1);
      }
      assert DecidesAt(source, target, columns, 0) <==>
             Col(source, columns[0]).Some?
             && (Col(target, columns[0]) == None || Col(source, columns[0]).value > Col(target, columns[0]).value);
    }
  }

  lemma {:induction false} EvalConjunction(terms: seq<Sql>, source: Change, target: Row)
    requires terms != [] && forall i :: 0 <= i < |terms| ==> Eval(terms[i], source, target) != Unknown
    ensures Eval(Conjunction(terms), source, target)
            == Known(forall i :: 0 <= i < |terms| ==> Eval(terms[i], source, target) == True)
  {
    if |terms| > 1 {
      EvalConjunction(terms[..|terms| - 1], source, target);
    }
  }

  lemma {:induction false} EvalDisjunction(terms: seq<Sql>, source: Change, target: Row)
    requires terms != [] && forall i :: 0 <= i < |terms| ==> Eval(terms[i], source, target) != Unknown
    ensures Eval(Disjunction(terms), source, target)
            == Known(exists i :: 0 <= i < |terms| && Eval(terms[i], source, target) == True)
  {
    if |terms| > 1 {
      EvalDisjunction(terms[..|terms| - 1], source, target);
    }
  }

  function EqualPrefix(columns: seq<string>, n: nat): seq<Sql>
    requires n <= |columns|
  {
    seq(n, i requires 0 <= i < n => NullSafeEqual(columns[i]))
  }

  function ClauseAt(columns: seq<string>, n: nat): Sql
    requires n < |columns|
  {
    if n == 0 then GreaterClause(columns[0]) else And(Conjunction(EqualPrefix(columns, n)), GreaterClause(columns[n]))
  }

  /** The null tests keep the comparison from ever being unknown. */
  lemma EvalGreaterClause(c: string, source: Change, target: Row)
    ensures Eval(GreaterClause(c), source, target)
         == Known(Col(source.row, c).Some?
                  && (Col(target, c) == None || Col(source.row, c).value > Col(target, c).value))
  {
    var inner := Or(TargetNull(c), SourceGreater(c));
    assert Eval(inner, source, target)
      == Or3(Eval(TargetNull(c), source, target), Eval(SourceGreater(c), source, target));
    assert Eval(GreaterClause(c), source, target)
      == And3(Eval(SourceNotNull(c), source, target), Eval(inner, source, target));
  }

  lemma EvalClauseAt(columns: seq<string>, n: nat, source: Change, target: Row)
    requires n < |columns|
    ensures Eval(ClauseAt(columns, n), source, target) == Known(DecidesAt(source.row, target, columns, n))
  {
    EvalGreaterClause(columns[n], source, target);
    if n > 0 {
      var prefix := EqualPrefix(columns, n);
      EvalConjunction(prefix, source, target);
      assert forall i :: 0 <= i < n ==>
               Eval(prefix[i], source, target) == Known(Col(source.row, columns[i]) == Col(target, columns[i]));
    }
  }

  /** The predicate text built column by column is never null and means exactly "source is newer". */
  method LexicographicNewerCondition(columns: seq<string>) returns (condition: Option<Sql>)
    ensures condition == None <==> columns == []
    ensures condition.Some? ==> forall source: Change, target: Row ::
              Eval(condition.value, source, target) == Known(NewerRow(source.row, target, columns))
  {
    if columns == [] {
      return None;
    }
    var clauses: seq<Sql> := [];
    var equalPrefix: seq<Sql> := [];
    for n := 0 to |columns|
      invariant |clauses| == n && equalPrefix == EqualPrefix(columns, n)
      invariant forall i :: 0 <= i < n ==> clauses[i] == ClauseAt(columns, i)
    {
      var greater := GreaterClause(columns[n]);
      clauses := clauses + [if equalPrefix == [] then greater else And(Conjunction(equalPrefix), greater)];
      equalPrefix := equalPrefix + [NullSafeEqual(columns[n])];
    }
    condition := Some(Disjunction(clauses));
    forall source: Change, target: Row
      ensures Eval(Disjunction(clauses), source, target) == Known(NewerRow(source.row, target, columns))
    {
      forall i | 0 <= i < |clauses|
        ensures Eval(clauses[i], source, target) == Known(DecidesAt(source.row, target, columns, i))
      {
        EvalClauseAt(columns, i, source, target);
      }
      EvalDisjunction(clauses, source, target);
      NewerDecided(source.row, target, columns);
      assert forall i :: 0 <= i < |clauses| ==>
               (Eval(clauses[i], source, target) == True <==> DecidesAt(source.row, target, columns, i));
    }
  }

  // ---------------------------------------------------------------- one MERGE

  /** The options of one `upsert_table` call that the pipelines use. */
  datatype Options = Options(
    mergeKeys: seq<string>,
    sequence: seq<string>,
    gold: bool,
    preserveOnSoftDelete: bool,
    deleteNotMatchedBySource: bool,
    sourceIsNonempty: bool)

  datatype Clause = DeleteWhen(condition: Sql) | UpdateWhen(condition: Sql, columns: set<string>)

  /** SET the named columns from the source row. */
  function Overlay(target: Row, source: Row, columns: set<string>): Row {
    target + (map c | c in columns && c in source :: source[c])
  }

  /** Delta applies the first matched clause whose condition is true. */
  function RunMatched(clauses: seq<Clause>, target: Row, source: Change): Option<Row> {
    if clauses == [] then Some(target)
    else if Eval(clauses[0].condition, source, target) == True then
      match clauses[0]
      case DeleteWhen(_) => None
      case UpdateWhen(_, columns) => Some(Overlay(target, source.row, columns))
    else RunMatched(clauses[1..], target, source)
  }

  function AfterKey(rows: map<Key, Row>, changes: map<Key, Change>, clauses: seq<Clause>, insert: Option<Sql>,
                    dropUnmatched: bool, k: Key): Option<Row>
  {
    if k in rows && k in changes then RunMatched(clauses, rows[k], changes[k])
    else if k in rows then (if dropUnmatched then None else Some(rows[k]))
    else if k in changes && (insert == None || Eval(insert.value, changes[k], map[]) == True) then Some(changes[k].row)
    else None
  }

  /** The table holding `at(k)` under each key where that is a row. */
  function Collect(keys: set<Key>, at: Key -> Option<Row>): (rows: map<Key, Row>)
    ensures forall k :: k in rows <==> k in keys && at(k).Some?
    ensures forall k :: k in rows ==> at(k) == Some(rows[k])
  {
    map k | k in keys && at(k).Some? :: at(k).value
  }

  function ExecuteMerge(rows: map<Key, Row>, changes: map<Key, Change>, clauses: seq<Clause>, insert: Option<Sql>,
                        dropUnmatched: bool): map<Key, Row>
  {
    Collect(rows.Keys + changes.Keys, k => AfterKey(rows, changes, clauses, insert, dropUnmatched, k))
  }

  predicate Deleted(row: Row) { Col(row, "_is_deleted") == Some(1) }

  predicate IsMetadata(c: string) { c != "" && c[0] == '_' }

  function Compared(columns: set<string>, o: Options): set<string> {
    columns - (set c | c in o.mergeKeys) - {"created_at", "_silver_updated_at"}
    - (if o.gold then {"updated_at"} else {})
  }

  predicate Differs(source: Row, target: Row, columns: set<string>) {
    exists c | c in columns :: Col(source, c) != Col(target, c)
  }

  /** What a matched row becomes: last writer wins under the sequence guard, and creation time is never rewritten. */
  function MergedRow(target: Row, source: Row, columns: set<string>, o: Options): Row {
    if !(o.sequence == [] || NewerRow(source, target, o.sequence)) then target
    else if o.preserveOnSoftDelete && "_is_deleted" in columns && Deleted(source) then
      Overlay(target, source, set c | c in columns && IsMetadata(c))
    else if Differs(source, target, Compared(columns, o)) then Overlay(target, source, columns - {"created_at"})
    else target
  }

  /** Whether an unmatched source row becomes a row of the table. */
  predicate Inserts(source: Row, columns: set<string>, o: Options) {
    o.preserveOnSoftDelete && "_is_deleted" in columns ==> !Deleted(source)
  }

  /** The row an upsert without delete keys leaves under one key. */
  function UpsertedAt(rows: map<Key, Row>, source: map<Key, Row>, columns: set<string>, o: Options, k: Key): Option<Row>
  {
    if k in rows && k in source then Some(MergedRow(rows[k], source[k], columns, o))
    else if k in rows then (if o.deleteNotMatchedBySource then None else Some(rows[k]))
    else if k in source && Inserts(source[k], columns, o) then Some(source[k])
    else None
  }

  function Upserted(rows: map<Key, Row>, source: map<Key, Row>, columns: set<string>,
                    o: Options): (result: map<Key, Row>)
    ensures forall k :: k in result <==> UpsertedAt(rows, source, columns, o, k).Some?
    ensures forall k :: k in result ==> UpsertedAt(rows, source, columns, o, k) == Some(result[k])
  {
    Collect(rows.Keys + source.Keys, k => UpsertedAt(rows, source, columns, o, k))
  }

  /** An upsert that also removes `deleteKeys`, for a call without a sequence guard. */
  function UpsertedWithDeletes(rows: map<Key, Row>, source: map<Key, Row>, deleteKeys: set<Key>, columns: set<string>,
                               o: Options): map<Key, Row>
  {
    Upserted(rows, source, columns, o) - deleteKeys
  }

  // ---------------------------------------------------------------- what an upsert means, column by column

  /** The source row is newer under the guard, which is lexicographic with null oldest, or there is no guard. */
  ghost predicate Wins(source: Row, target: Row, sequence: seq<string>) {
    sequence == [] || exists n :: 0 <= n < |sequence| && DecidesAt(source, target, sequence, n)
  }

  /** A column that counts as a change: no merge key, not creation time, not a time the pipeline stamps itself. */
  ghost predicate Counts(c: string, o: Options) {
    c !in o.mergeKeys && c != "created_at" && c != "_silver_updated_at" && (c == "updated_at" ==> !o.gold)
  }

  /** The upsert keeps soft-deleted targets, and the source row is a delete. */
  ghost predicate PreservedDelete(source: Row, columns: set<string>, o: Options) {
    o.preserveOnSoftDelete && "_is_deleted" in columns && "_is_deleted" in source && source["_is_deleted"] == Some(1)
  }

  /** The source value of a matched row reaches the table. */
  ghost predicate Written(source: Row, target: Row, columns: set<string>, o: Options, c: string) {
    && Wins(source, target, o.sequence) && c in columns && c in source
    && if PreservedDelete(source, columns, o) then c != "" && c[0] == '_'
       else c != "created_at" && exists d :: d in columns && Counts(d, o) && Col(source, d) != Col(target, d)
  }

  /**
   Every column of a matched row. A preserved delete takes the underscore columns and leaves the business columns as
   they were; any other newer row that differs takes all but creation time; everything else leaves the row alone.
   */
  lemma UpsertColumns(rows: map<Key, Row>, source: map<Key, Row>, columns: set<string>, o: Options, k: Key, c: string)
    requires k in rows && k in source
    ensures var after := Upserted(rows, source, columns, o);
            && k in after
            && Col(after[k], c)
               == if Written(source[k], rows[k], columns, o, c) then source[k][c] else Col(rows[k], c)
  {
    assert UpsertedAt(rows, source, columns, o, k) == Some(MergedRow(rows[k], source[k], columns, o));
    MergedColumns(rows[k], source[k], columns, o, c);
  }

  lemma MergedColumns(target: Row, source: Row, columns: set<string>, o: Options, c: string)
    ensures Col(MergedRow(target, source, columns, o), c)
            == if Written(source, target, columns, o, c) then source[c] else Col(target, c)
  {
    NewerDecided(source, target, o.sequence);
    assert Differs(source, target, Compared(columns, o))
      <==> exists d :: d in columns && Counts(d, o) && Col(source, d) != Col(target, d) by {
      forall d ensures d in Compared(columns, o) <==> d in columns && Counts(d, o) {
      }
    }
  }

  /**
   Every other key: the rest of the table stays unless the call drops it, and a source row is inserted as it is, except
   a delete under preservation.
   */
  lemma UpsertKeys(rows: map<Key, Row>, source: map<Key, Row>, columns: set<string>, o: Options, k: Key)
    requires k !in rows || k !in source
    ensures var after := Upserted(rows, source, columns, o);
            && (k in after <==>
                if k in rows then !o.deleteNotMatchedBySource
                else k in source && !PreservedDelete(source[k], columns, o))
            && (k in after ==> after[k] == if k in rows then rows[k] else source[k])
  {
    var after := Upserted(rows, source, columns, o);
    assert k in after <==> UpsertedAt(rows, source, columns, o, k).Some?;
  }

  // ---------------------------------------------------------------- what the clause list means

  function Guarded(newer: Option<Sql>, condition: Sql): Sql {
    if newer == None then condition else And(newer.value, condition)
  }

  /** `newer` is the compiled form of the sequence guard. */
  ghost predicate Guards(newer: Option<Sql>, sequence: seq<string>) {
    && (newer == None <==> sequence == [])
    && (newer.Some? ==> forall source: Change, target: Row ::
          Eval(newer.value, source, target) == Known(NewerRow(source.row, target, sequence)))
  }

  lemma GuardedMeans(newer: Option<Sql>, sequence: seq<string>, condition: Sql, source: Change, target: Row)
    requires Guards(newer, sequence)
    ensures Eval(Guarded(newer, condition), source, target) == True <==>
              (sequence == [] || NewerRow(source.row, target, sequence)) && Eval(condition, source, target) == True
  {
  }

  function SoftDeleteClause(newer: Option<Sql>, columns: set<string>): Clause {
    UpdateWhen(Guarded(newer, SourceDeleted), set c | c in columns && IsMetadata(c))
  }

  /** The update of changed rows, restricted to `scope` when there is one. */
  function UpdateClause(newer: Option<Sql>, scope: Option<Sql>, columns: set<string>, o: Options): Clause {
    var update := Guarded(newer, Not(SameColumns(Compared(columns, o))));
    UpdateWhen(if scope == None then update else And(scope.value, update), columns - {"created_at"})
  }

  lemma UpdateClauseMeans(newer: Option<Sql>, scope: Option<Sql>, columns: set<string>, o: Options, source: Change,
                          target: Row)
    requires Guards(newer, o.sequence)
    ensures Eval(UpdateClause(newer, scope, columns, o).condition, source, target) == True <==>
              (scope.Some? ==> Eval(scope.value, source, target) == True)
              && (o.sequence == [] || NewerRow(source.row, target, o.sequence))
              && Differs(source.row, target, Compared(columns, o))
  {
    GuardedMeans(newer, o.sequence, Not(SameColumns(Compared(columns, o))), source, target);
  }

  function SoftPlan(newer: Option<Sql>, columns: set<string>, o: Options): seq<Clause> {
    var preserves := o.preserveOnSoftDelete && "_is_deleted" in columns;
    (if preserves then [SoftDeleteClause(newer, columns)] else [])
    + UpdatePlan(newer, if preserves then Some(SourceActive) else None, columns, o)
  }

  /** The soft-delete plan does to a matched row what last-writer-wins says. */
  lemma SoftPlanMeans(newer: Option<Sql>, columns: set<string>, o: Options, source: Change, target: Row)
    requires Guards(newer, o.sequence) && !source.delete
    ensures RunMatched(SoftPlan(newer, columns, o), target, source) == Some(MergedRow(target, source.row, columns, o))
  {
    var preserves := o.preserveOnSoftDelete && "_is_deleted" in columns;
    var plan := SoftPlan(newer, columns, o);
    if preserves {
      UpdatePlanMeans(newer, Some(SourceActive), columns, o, source, target);
      GuardedMeans(newer, o.sequence, SourceDeleted, source, target);
      assert plan[1..] == UpdatePlan(newer, Some(SourceActive), columns, o);
    } else {
      UpdatePlanMeans(newer, None, columns, o, source, target);
      assert plan == UpdatePlan(newer, None, columns, o);
    }
  }

  function UpdatePlan(newer: Option<Sql>, scope: Option<Sql>, columns: set<string>, o: Options): seq<Clause> {
    if Compared(columns, o) != {} then [UpdateClause(newer, scope, columns, o)] else []
  }

  /** The update clause alone rewrites a row in scope that is older and different. */
  lemma UpdatePlanMeans(newer: Option<Sql>, scope: Option<Sql>, columns: set<string>, o: Options, source: Change,
                        target: Row)
    requires Guards(newer, o.sequence)
    ensures RunMatched(UpdatePlan(newer, scope, columns, o), target, source) ==
            if (scope.Some? ==> Eval(scope.value, source, target) == True)
               && (o.sequence == [] || NewerRow(source.row, target, o.sequence))
                 && Differs(source.row, target, Compared(columns, o))
            then Some(Overlay(target, source.row, columns - {"created_at"})) else Some(target)
  {
    UpdateClauseMeans(newer, scope, columns, o, source, target);
  }

  function DeletePlan(columns: set<string>, o: Options): seq<Clause> {
    [DeleteWhen(DeleteMark)]
    + UpdatePlan(None, Some(Not(DeleteMark)), columns, o)
  }

  /** The plan with delete keys removes marked rows and updates changed ones. */
  lemma DeletePlanMeans(columns: set<string>, o: Options, source: Change, target: Row)
    requires o.sequence == [] && !o.preserveOnSoftDelete
    ensures RunMatched(DeletePlan(columns, o), target, source) ==
            if source.delete then None else Some(MergedRow(target, source.row, columns, o))
  {
    var plan := DeletePlan(columns, o);
    UpdatePlanMeans(None, Some(Not(DeleteMark)), columns, o, source, target);
    assert plan[1..] == UpdatePlan(None, Some(Not(DeleteMark)), columns, o);
  }

  function Marked(source: map<Key, Row>, deleteKeys: set<Key>): (changes: map<Key, Change>)
    ensures changes.Keys == source.Keys + deleteKeys
    ensures forall k :: k in changes ==>
              changes[k] == if k in deleteKeys then Change(map[], true) else Change(source[k], false)
  {
    map k | k in source.Keys + deleteKeys :: if k in deleteKeys then Change(map[], true) else Change(source[k], false)
  }

  function SoftScope(columns: set<string>, o: Options): Option<Sql> {
    if o.preserveOnSoftDelete && "_is_deleted" in columns then Some(SourceActive) else None
  }

  lemma SoftMergeAt(rows: map<Key, Row>, source: map<Key, Row>, newer: Option<Sql>, columns: set<string>, o: Options,
                    k: Key)
    requires Guards(newer, o.sequence)
    ensures AfterKey(rows, Marked(source, {}), SoftPlan(newer, columns, o), SoftScope(columns, o),
                     o.deleteNotMatchedBySource, k)
         == UpsertedAt(rows, source, columns, o, k)
  {
    var changes := Marked(source, {});
    if k in source {
      assert changes[k] == Change(source[k], false);
      if k in rows {
        SoftPlanMeans(newer, columns, o, changes[k], rows[k]);
      } else {
        assert Eval(SourceActive, changes[k], map[]) == Known(!Deleted(source[k]));
      }
    }
  }

  /** A merge is determined by what it leaves under each key. */
  lemma MergeIs(rows: map<Key, Row>, changes: map<Key, Change>, clauses: seq<Clause>, insert: Option<Sql>,
                dropUnmatched: bool, result: map<Key, Row>)
    requires forall k ::
               AfterKey(rows, changes, clauses, insert, dropUnmatched, k) == if k in result then Some(result[k])
                 else None
    ensures ExecuteMerge(rows, changes, clauses, insert, dropUnmatched) == result
  {
    var merged := ExecuteMerge(rows, changes, clauses, insert, dropUnmatched);
    forall k | k in result ensures k in merged && merged[k] == result[k] {
      assert AfterKey(rows, changes, clauses, insert, dropUnmatched, k) == Some(result[k]);
    }
  }

  lemma SoftMergeMeans(rows: map<Key, Row>, source: map<Key, Row>, newer: Option<Sql>, columns: set<string>, o: Options)
    requires Guards(newer, o.sequence)
    ensures ExecuteMerge(rows, Marked(source, {}), SoftPlan(newer, columns, o), SoftScope(columns, o),
                         o.deleteNotMatchedBySource)
         == Upserted(rows, source, columns, o)
  {
    var result, changes := Upserted(rows, source, columns, o), Marked(source, {});
    forall k
      ensures AfterKey(rows, changes, SoftPlan(newer, columns, o), SoftScope(columns, o), o.deleteNotMatchedBySource, k)
           == if k in result then Some(result[k]) else None
    {
      SoftMergeAt(rows, source, newer, columns, o, k);
    }
    MergeIs(rows, changes, SoftPlan(newer, columns, o), SoftScope(columns, o), o.deleteNotMatchedBySource, result);
  }

  lemma DeleteMergeAt(rows: map<Key, Row>, source: map<Key, Row>, deleteKeys: set<Key>, columns: set<string>,
                      o: Options, k: Key)
    requires o.sequence == [] && !o.preserveOnSoftDelete && !o.deleteNotMatchedBySource && deleteKeys !! source.Keys
    ensures AfterKey(rows, Marked(source, deleteKeys), DeletePlan(columns, o), Some(Not(DeleteMark)), false, k)
         == if k in deleteKeys then None else UpsertedAt(rows, source, columns, o, k)
  {
    var changes := Marked(source, deleteKeys);
    if k in changes {
      if k in rows {
        DeletePlanMeans(columns, o, changes[k], rows[k]);
      } else {
        assert Eval(Not(DeleteMark), changes[k], map[]) == Not3(Eval(DeleteMark, changes[k], map[]));
      }
    }
  }

  lemma DeleteMergeMeans(rows: map<Key, Row>, source: map<Key, Row>, deleteKeys: set<Key>, columns: set<string>,
                         o: Options)
    requires o.sequence == [] && !o.preserveOnSoftDelete && !o.deleteNotMatchedBySource && deleteKeys !! source.Keys
    ensures ExecuteMerge(rows, Marked(source, deleteKeys), DeletePlan(columns, o), Some(Not(DeleteMark)), false)
         == UpsertedWithDeletes(rows, source, deleteKeys, columns, o)
  {
    var result, changes := UpsertedWithDeletes(rows, source, deleteKeys, columns, o), Marked(source, deleteKeys);
    forall k
      ensures AfterKey(rows, changes, DeletePlan(columns, o), Some(Not(DeleteMark)), false, k)
           == if k in result then Some(result[k]) else None
    {
      DeleteMergeAt(rows, source, deleteKeys, columns, o, k);
    }
    MergeIs(rows, changes, DeletePlan(columns, o), Some(Not(DeleteMark)), false, result);
  }

  /** The clauses in the order the adapter adds them, and the condition of the final insert. */
  method BuildPlan(newer: Option<Sql>, columns: set<string>, o: Options, marksDeletes: bool)
    returns (clauses: seq<Clause>, insert: Option<Sql>)
    ensures !marksDeletes ==> clauses == SoftPlan(newer, columns, o) && insert == SoftScope(columns, o)
    ensures marksDeletes ==> insert == Some(Not(DeleteMark))
    ensures marksDeletes && newer == None && !o.preserveOnSoftDelete ==> clauses == DeletePlan(columns, o)
  {
    var preserves := o.preserveOnSoftDelete && "_is_deleted" in columns;
    var compared := Compared(columns, o);
    var updateColumns := columns - {"created_at"};
    var notDelete: Option<Sql> := None;
    clauses := [];
    if marksDeletes {
      clauses := clauses + [DeleteWhen(Guarded(newer, DeleteMark))];
      notDelete := Some(Not(DeleteMark));
    }
    if preserves {
      var metadata := set c | c in updateColumns && IsMetadata(c);
      assert metadata == set c | c in columns && IsMetadata(c);
      clauses := clauses + [UpdateWhen(Guarded(newer, SourceDeleted), metadata)];
      notDelete := Some(if notDelete == None then SourceActive else And(notDelete.value, SourceActive));
    }
    if compared != {} {
      var update := Guarded(newer, Not(SameColumns(compared)));
      var condition := if notDelete == None then update else And(notDelete.value, update);
      clauses := clauses + [UpdateWhen(condition, updateColumns)];
    }
    insert := if marksDeletes then Some(Not(DeleteMark)) else notDelete;
  }

  datatype Outcome = Written | Skipped | Rejected

  /** A Delta table as the adapter sees it. */
  class DeltaTable {
    var present: bool
    var columns: set<string>
    var rows: map<Key, Row>

    constructor ()
      ensures !present && rows == map[]
    {
      present, columns, rows := false, {}, map[];
    }

    method WriteTable(source: map<Key, Row>, sourceColumns: set<string>)
      modifies this
      ensures present && columns == sourceColumns && rows == source
    {
      present, columns, rows := true, sourceColumns, source;
    }

    /**
     Upsert `source`. An absent table is created from it; a schema mismatch or a bad argument changes nothing; an empty
     source skips the MERGE altogether unless the caller vouches for it.
     */
    method UpsertTable(source: map<Key, Row>, sourceColumns: set<string>, o: Options, deleteKeys: Option<set<Key>>)
      returns (outcome: Outcome)
      requires deleteKeys.Some? ==> deleteKeys.value !! source.Keys && o.sequence == [] && !o.preserveOnSoftDelete
                                    && !o.deleteNotMatchedBySource
      modifies this
      ensures outcome == Rejected <==>
                o.mergeKeys == [] || (exists c :: c in o.sequence && c !in sourceColumns)
                || (old(present) && sourceColumns != old(columns))
      ensures outcome == Rejected ==> present == old(present) && columns == old(columns) && rows == old(rows)
      ensures outcome != Rejected ==> present && columns == sourceColumns
      ensures outcome != Rejected && !old(present) ==> outcome == Written && rows == source
      ensures outcome != Rejected && old(present) ==>
                (outcome == Skipped <==>
                 !o.sourceIsNonempty && source == map[] && (deleteKeys.Some? ==> deleteKeys.value == {}))
      ensures outcome == Skipped ==> rows == old(rows)
      ensures outcome == Written && old(present) && deleteKeys == None ==>
                rows == Upserted(old(rows), source, sourceColumns, o)
      ensures outcome == Written && old(present) && deleteKeys.Some? ==>
                rows == UpsertedWithDeletes(old(rows), source, deleteKeys.value, sourceColumns, o)
    {
      if o.mergeKeys == [] || (exists c | c in o.sequence :: c !in sourceColumns) {
        return Rejected;
      }
      if !present {
        WriteTable(source, sourceColumns);
        return Written;
      }
      if sourceColumns != columns {
        return Rejected;
      }
      var changes := Marked(source, if deleteKeys == None then {} else deleteKeys.value);
      if !o.sourceIsNonempty && changes == map[] {
        return Skipped;
      }
      var newer := LexicographicNewerCondition(o.sequence);
      var clauses, insert := BuildPlan(newer, sourceColumns, o, deleteKeys.Some?);
      if deleteKeys == None {
        SoftMergeMeans(rows, source, newer, sourceColumns, o);
      } else {
        DeleteMergeMeans(rows, source, deleteKeys.value, sourceColumns, o);
      }
      rows := ExecuteMerge(rows, changes, clauses, insert, o.deleteNotMatchedBySource);
      outcome := Written;
    }
  }
}
