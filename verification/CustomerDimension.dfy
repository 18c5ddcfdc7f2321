/**
 Incremental maintenance of dim_customer: read the change-history increment past the checkpoint, replay the affected
 customers from their whole history, upsert the versions, delete obsolete surrogate keys, then move the checkpoint.
 */
module CustomerDimension {
  import opened Prelude
  import opened Scd2Replay
  import opened Scd2AsOf
  import opened ReplayedDimension

  const TYPE1: set<string> := {"last_login_at"}

  /** One Delta version of the change history: rows appended, or the table overwritten by a rebuild of Silver. */
  datatype HistoryCommit = Appended(events: seq<Event>) | Overwritten(events: seq<Event>)

  type HistoryLog = seq<HistoryCommit>

  /** What the history table holds. */
  function Events(log: HistoryLog): seq<Event> {
    if log == [] then []
    else
      match log[|log| - 1]
      case Appended(events) => Events(log[..|log| - 1]) + events
      case Overwritten(events) => events
  }

  function Restrict(events: seq<Event>, ids: set<int>): seq<Event> {
    if events == [] then []
    else
      var last := events[|events| - 1];
      Restrict(events[..|events| - 1], ids) + (if last.source.Some? && last.source.value in ids then [last] else [])
  }

  lemma {:induction false} RestrictExact(events: seq<Event>, ids: set<int>)
    ensures forall e :: e in Restrict(events, ids) <==> e in events && e.source.Some? && e.source.value in ids
  {
    if events != [] {
      RestrictExact(events[..|events| - 1], ids);
      assert events == events[..|events| - 1] + [events[|events| - 1]];
    }
  }

  function ReplayOf(events: seq<Event>, customer: int): Dimension { Keyed(ReplayEntity(events, customer, TYPE1)) }

  /** A customer's rows carry the last login, and no other Type 1 column. */
  lemma RowsCarryLastLogin(events: seq<Event>, customer: int, k: Surrogate)
    requires IdsIdentify(events) && k in ReplayOf(events, customer)
    ensures ReplayOf(events, customer)[k].type1.Keys == {"last_login_at"}
  {
    var versions := ReplayEntity(events, customer, TYPE1);
    KeyedRow(versions, k);
    var n :| 0 <= n < |versions| && versions[n] == Keyed(versions)[k];
    var i := ReplayRow(Ordered(events, customer), TYPE1, n);
  }

  function ReplayAll(events: seq<Event>, ids: set<int>): Dimension {
    Gather(map c | c in ids :: ReplayOf(events, c))
  }

  lemma ReplayAllRows(events: seq<Event>, ids: set<int>, customer: int)
    requires IdsIdentify(events)
    ensures RowsOf(ReplayAll(events, ids), customer) == if customer in ids then ReplayOf(events, customer) else map[]
  {
    ReplaySource(events, customer, TYPE1);
    GatherRows(map c | c in ids :: ReplayOf(events, c), customer);
  }

  /** Customers named by the insert rows of the history versions from `lo` on. */
  function Named(log: HistoryLog, lo: nat): set<int> {
    set i, e | lo <= i < |log| && e in log[i].events && e.source.Some? :: e.source.value
  }

  predicate HasEvents(events: seq<Event>, customer: int) { exists e :: e in events && e.source == Some(customer) }

  ghost predicate SameEntity(a: seq<Event>, b: seq<Event>, customer: int) {
    forall e: Event :: e.source == Some(customer) ==> (e in a <==> e in b)
  }

  /** A customer not named since `lo` has the events he had then, or none if the history has been overwritten since. */
  lemma {:induction false} UnnamedEvents(log: HistoryLog, lo: nat, customer: int)
    requires lo <= |log| && customer !in Named(log, lo)
    ensures if OverwrittenSince(log, lo) then !HasEvents(Events(log), customer)
            else SameEntity(Events(log), Events(log[..lo]), customer)
  {
    var n := |log| - 1;
    if lo <= n {
      var init := log[..n];
      assert customer !in Named(init, lo) by {
        assert forall i :: lo <= i < n ==> init[i] == log[i];
      }
      UnnamedEvents(init, lo, customer);
      assert init[..lo] == log[..lo];
      assert forall e :: e in log[n].events && e.source.Some? ==> e.source.value in Named(log, lo);
      OverwrittenStep(log, lo);
    } else {
      assert log[..lo] == log;
    }
  }

  predicate OverwrittenSince(log: HistoryLog, lo: nat) { exists i :: lo <= i < |log| && log[i].Overwritten? }

  lemma OverwrittenStep(log: HistoryLog, lo: nat)
    requires lo < |log|
    ensures OverwrittenSince(log, lo) <==> OverwrittenSince(log[..|log| - 1], lo) || log[|log| - 1].Overwritten?
  {
    var init := log[..|log| - 1];
    assert forall i :: 0 <= i < |init| ==> init[i] == log[i];
  }

  lemma NoEventsNoRows(events: seq<Event>, customer: int)
    requires IdsIdentify(events) && !HasEvents(events, customer)
    ensures ReplayOf(events, customer) == map[]
  {
    EntityLocal(events, [], customer, TYPE1);
    assert DropDuplicates([]) == [];
  }

  /** The customer's rows are those of a full replay. */
  predicate Replayed(dim: Dimension, log: HistoryLog, customer: int) {
    RowsOf(dim, customer) == ReplayOf(Events(log), customer)
  }

  /** `dim` is the full replay of `log`. */
  ghost predicate IsReplay(dim: Dimension, log: HistoryLog) {
    forall c :: Replayed(dim, log, c)
  }

  /** Every customer not named since `lo` has exactly the rows of a full replay. */
  ghost predicate UpToDate(dim: Dimension, log: HistoryLog, lo: nat)
    requires lo <= |log|
  {
    forall c :: c !in Named(log, lo) ==> Replayed(dim, log, c)
  }

  /** The dimension after replaying the customers named since `lo`. */
  function Incremented(dim: Dimension, log: HistoryLog, lo: nat): Dimension
    requires lo <= |log|
  {
    var ids := Named(log, lo);
    UpsertReplayed(dim, ReplayAll(Restrict(Events(log), ids), ids), ids)
  }

  lemma ReplayIsUpToDate(dim: Dimension, log: HistoryLog, lo: nat)
    requires lo <= |log| && IsReplay(dim, log)
    ensures UpToDate(dim, log, lo)
  {
  }

  /**
   Replaying the named customers from their own rows of the history makes the dimension the full replay if and only if
   every other customer already has exactly the rows of a full replay.
   */
  lemma IncrementIsFullReplay(dim: Dimension, log: HistoryLog, lo: nat)
    requires lo <= |log| && IdsIdentify(Events(log))
    ensures IsReplay(Incremented(dim, log, lo), log) <==> UpToDate(dim, log, lo)
  {
    var ids, next := Named(log, lo), Incremented(dim, log, lo);
    RestrictExact(Events(log), ids);
    forall c ensures Replayed(next, log, c) <==> c in ids || Replayed(dim, log, c) {
      IncrementRows(dim, log, ids, c);
    }
    if c :| c !in ids && !Replayed(dim, log, c) {
      assert !Replayed(next, log, c);
    }
  }

  lemma IncrementRows(dim: Dimension, log: HistoryLog, ids: set<int>, customer: int)
    requires IdsIdentify(Events(log)) && IdsIdentify(Restrict(Events(log), ids))
    ensures RowsOf(UpsertReplayed(dim, ReplayAll(Restrict(Events(log), ids), ids), ids), customer)
         == if customer in ids then ReplayOf(Events(log), customer) else RowsOf(dim, customer)
  {
    var scoped := Restrict(Events(log), ids);
    ReplayAllRows(scoped, ids, customer);
    UpsertRows(dim, ReplayAll(scoped, ids), ids, customer);
    if customer in ids {
      RestrictExact(Events(log), ids);
      EntityLocal(scoped, Events(log), customer, TYPE1);
    } else {
      assert RowsOf(dim, customer) + map[] == RowsOf(dim, customer);
    }
  }

  function Rebuilt(log: HistoryLog): Dimension { ReplayAll(Events(log), Named(log, 0)) }

  /** Replaying every customer the history names is the full replay. */
  lemma FullReplay(log: HistoryLog)
    requires IdsIdentify(Events(log))
    ensures IsReplay(Rebuilt(log), log)
  {
    forall c ensures Replayed(Rebuilt(log), log, c) {
      ReplayAllRows(Events(log), Named(log, 0), c);
      if c !in Named(log, 0) {
        UnnamedEvents(log, 0, c);
        NoEventsNoRows(Events(log), c);
      }
    }
  }

  lemma SameReplay(dim: Dimension, a: HistoryLog, b: HistoryLog)
    requires a == b && IsReplay(dim, a)
    ensures IsReplay(dim, b)
  {
  }

  lemma ReplayIsCurrent(dim: Dimension, log: HistoryLog)
    requires IsReplay(dim, log)
    ensures UpToDate(dim, log, |log|) && IsReplay(dim, log[..|log|])
  {
    SameReplay(dim, log, log[..|log|]);
  }

  /** One more version names the customers it inserts. */
  lemma NamedMore(log: HistoryLog, commit: HistoryCommit, lo: nat, customer: int)
    requires lo <= |log|
    ensures customer in Named(log + [commit], lo) <==> customer in Named(log, lo) || HasEvents(commit.events, customer)
  {
    var more := log + [commit];
    assert forall i :: 0 <= i < |log| ==> more[i] == log[i];
    assert more[|log|] == commit;
    if HasEvents(commit.events, customer) {
      var e :| e in commit.events && e.source == Some(customer);
      assert e in more[|log|].events;
    }
    if customer in Named(log, lo) {
      var i, e :| lo <= i < |log| && e in log[i].events && e.source == Some(customer);
      assert e in more[i].events;
    }
  }

  /** History appended past `lo` only adds customers named since. */
  lemma AppendUpToDate(dim: Dimension, log: HistoryLog, events: seq<Event>, lo: nat)
    requires lo <= |log| && UpToDate(dim, log, lo) && IdsIdentify(Events(log) + events)
    ensures UpToDate(dim, log + [Appended(events)], lo)
  {
    var more := log + [Appended(events)];
    assert more[..|log|] == log;
    assert forall e :: e in Events(log) ==> e in Events(log) + events;
    forall c | c !in Named(more, lo) ensures Replayed(dim, more, c) {
      NamedMore(log, Appended(events), lo, c);
      assert Replayed(dim, log, c);
      EntityLocal(Events(more), Events(log), c, TYPE1);
    }
  }

  /**
   Once the history has been overwritten, the unnamed customers are up to date if and only if the dimension has none of
   them.
   */
  lemma OverwriteExact(dim: Dimension, log: HistoryLog, lo: nat)
    requires lo <= |log| && IdsIdentify(Events(log)) && OverwrittenSince(log, lo)
    ensures UpToDate(dim, log, lo) <==> forall c :: RowsOf(dim, c) != map[] ==> c in Named(log, lo)
  {
    forall c | c !in Named(log, lo) ensures Replayed(dim, log, c) <==> RowsOf(dim, c) == map[] {
      UnnamedEvents(log, lo, c);
      NoEventsNoRows(Events(log), c);
    }
    if UpToDate(dim, log, lo) {
      forall c | RowsOf(dim, c) != map[] ensures c in Named(log, lo) {
        assert c !in Named(log, lo) ==> Replayed(dim, log, c);
      }
    }
  }

  /** The first commit of a run: read the increment, replay the customers it names, upsert. */
  method ReplayIncrement(dim: Dimension, log: HistoryLog, lo: nat) returns (next: Dimension)
    requires lo <= |log| && IdsIdentify(Events(log))
    ensures forall c :: c !in Named(log, lo) ==> RowsOf(next, c) == RowsOf(dim, c)
    ensures IsReplay(next, log) <==> UpToDate(dim, log, lo)
    ensures IsReplay(next, log) ==>
              UpToDate(next, log, lo) && UpToDate(next, log, |log|) && IsReplay(next, log[..|log|])
  {
    next := Incremented(dim, log, lo);
    IncrementIsFullReplay(dim, log, lo);
    RestrictExact(Events(log), Named(log, lo));
    forall c | c !in Named(log, lo) ensures RowsOf(next, c) == RowsOf(dim, c) {
      IncrementRows(dim, log, Named(log, lo), c);
    }
    if IsReplay(next, log) {
      ReplayIsUpToDate(next, log, lo);
      ReplayIsCurrent(next, log);
    }
  }

  class CustomerBuilder {
    var log: HistoryLog
    var dim: Dimension
    var checkpoint: Option<nat>
    ghost var interrupted: bool

    ghost predicate Valid()
      reads this
    {
      IdsIdentify(Events(log)) && (checkpoint.Some? ==> checkpoint.value < |log|)
    }

    /**
     Stale rows belong only to customers with history past the checkpoint; after a completed run, to none at the
     checkpoint.
     */
    ghost predicate Tracks()
      reads this
    {
      && (checkpoint.Some? ==> checkpoint.value < |log| && UpToDate(dim, log, checkpoint.value + 1))
      && (checkpoint.Some? && !interrupted ==> IsReplay(dim, log[..checkpoint.value + 1]))
    }

    constructor ()
      ensures Valid() && Tracks() && log == [] && checkpoint == None
    {
      log, dim, checkpoint, interrupted := [], map[], None, false;
    }

    /** A Silver writer appends history rows. */
    method AppendHistory(events: seq<Event>)
      requires Valid() && IdsIdentify(Events(log) + events)
      modifies this`log
      ensures Valid() && log == old(log) + [Appended(events)] && (old(Tracks()) ==> Tracks())
    {
      var more := log + [Appended(events)];
      assert more[..|log|] == log;
      if checkpoint.Some? {
        var lo := checkpoint.value + 1;
        if Tracks() {
          AppendUpToDate(dim, log, events, lo);
          if !interrupted {
            SameReplay(dim, log[..lo], more[..lo]);
          }
        }
      }
      log := more;
    }

    /**
     A rebuild of Silver overwrites the history. The dimension keeps tracking it if and only if every customer it has
     rows for is named by a history version past the checkpoint, the overwrite included.
     */
    method ReplaceHistory(events: seq<Event>)
      requires Valid() && IdsIdentify(events)
      modifies this`log
      ensures Valid() && log == old(log) + [Overwritten(events)]
      ensures old(Tracks()) && checkpoint.Some? ==>
                (Tracks() <==> forall c :: RowsOf(dim, c) != map[] ==> c in Named(log, checkpoint.value + 1))
    {
      var more := log + [Overwritten(events)];
      assert more[..|log|] == log && more[|log|].Overwritten?;
      if checkpoint.Some? {
        var lo := checkpoint.value + 1;
        OverwriteExact(dim, more, lo);
        if Tracks() && !interrupted {
          SameReplay(dim, log[..lo], more[..lo]);
        }
      }
      log := more;
    }

    /** `_run_full`: rebuild the dimension, then record the checkpoint; the process may die between the two commits. */
    method RebuildAll(dies: bool)
      requires Valid() && log != []
      modifies this`dim, this`checkpoint, this`interrupted
      ensures Valid() && Tracks() && IsReplay(dim, log)
      ensures if dies then checkpoint == old(checkpoint) else checkpoint == Some(|log| - 1) && !interrupted
    {
      var all := Rebuilt(log);
      FullReplay(log);
      ReplayIsCurrent(all, log);
      if checkpoint.Some? {
        ReplayIsUpToDate(all, log, checkpoint.value + 1);
      }
      dim, interrupted := all, true;
      if dies {
        return;
      }
      checkpoint, interrupted := Some(|log| - 1), false;
    }

    /**
     One incremental run. The job exists only if the change feed of Silver's current state shows a substantive change,
     and does nothing when the history has not moved; otherwise it upserts and then commits the checkpoint. The process
     may die between the two commits; the next run replays the same increment again. The dimension becomes the full
     replay if and only if the customers that the increment does not name were up to date. A skipped run leaves it the
     replay at the old checkpoint.
     */
    method RunIncremental(substantive: bool, dies: bool) returns (moved: bool)
      requires Valid() && checkpoint.Some?
      modifies this`dim, this`checkpoint, this`interrupted
      ensures Valid() && (old(Tracks()) ==> Tracks())
      ensures moved <==> substantive && old(checkpoint).value < |log| - 1
      ensures !moved ==> dim == old(dim) && checkpoint == old(checkpoint) && interrupted == old(interrupted)
      ensures !moved && !interrupted && old(Tracks()) ==> IsReplay(dim, log[..checkpoint.value + 1])
      ensures moved ==> checkpoint == (if dies then old(checkpoint) else Some(|log| - 1)) && interrupted == dies
      ensures moved ==>
                forall c :: c !in Named(log, old(checkpoint).value + 1) ==> RowsOf(dim, c) == RowsOf(old(dim), c)
      ensures moved ==> (IsReplay(dim, log) <==> UpToDate(old(dim), log, old(checkpoint).value + 1))
      ensures moved && old(Tracks()) ==> IsReplay(dim, log)
    {
      var latest := |log| - 1;
      if !substantive || latest <= checkpoint.value {
        return false;
      }
      dim := ReplayIncrement(dim, log, checkpoint.value + 1);
      interrupted, moved := true, true;
      if dies {
        return;
      }
      checkpoint, interrupted := Some(latest), false;
    }
  }

  function ChangeAt(id: int, customer: int, time: int, hash: int): Event {
    Event(id, Some(customer), time, [], Update, hash, None, map[])
  }

  /** A run skipped for want of a current-state change leaves the late event out of the dimension. */
  method LateEventSkipped() returns (b: CustomerBuilder)
    ensures fresh(b) && b.Valid() && b.Tracks() && b.checkpoint == Some(0) && |b.log| == 2
    ensures IsReplay(b.dim, b.log[..1]) && !IsReplay(b.dim, b.log)
  {
    var first, second, late := ChangeAt(1, 7, 0, 10), ChangeAt(2, 7, 9, 30), ChangeAt(3, 7, 5, 20);
    b := new CustomerBuilder();
    b.AppendHistory([first, second]);
    b.RebuildAll(false);
    b.AppendHistory([late]);
    var moved := b.RunIncremental(false, false);
    LateEventDecides(first, second, late);
    assert b.log == [Appended([first, second]), Appended([late])] && b.log[..1] == [Appended([first, second])];
    TwoVersions([first, second], [late]);
    NotBothReplays(b.dim, b.log[..1], b.log, 7);
  }

  lemma NotBothReplays(dim: Dimension, a: HistoryLog, b: HistoryLog, customer: int)
    requires IsReplay(dim, a) && ReplayOf(Events(a), customer) != ReplayOf(Events(b), customer)
    ensures !IsReplay(dim, b)
  {
    assert Replayed(dim, a, customer);
    assert !Replayed(dim, b, customer);
  }

  lemma TwoVersions(a: seq<Event>, b: seq<Event>)
    ensures Events([Appended(a)]) == a && Events([Appended(a), Appended(b)]) == a + b
  {
    assert [Appended(a)][..0] == [] && [Appended(a), Appended(b)][..1] == [Appended(a)];
  }

  lemma LateEventDecides(first: Event, second: Event, late: Event)
    requires first == ChangeAt(1, 7, 0, 10) && second == ChangeAt(2, 7, 9, 30) && late == ChangeAt(3, 7, 5, 20)
    ensures IdsIdentify([first, second]) && IdsIdentify([first, second] + [late])
    ensures ReplayOf([first, second], 7) != ReplayOf([first, second] + [late], 7)
  {
    EarlierIsLess(first, late);
    assert first in [first, second];
    assert IsLastEvent([first, second], 7, 7, first);
    LateEventExact([first, second], [first, second] + [late], 7, TYPE1, 7, late, first);
  }

  /**
   A customer known from CDC alone: a rebuild of Silver from Bronze overwrites the history without him, the next run
   does not name him, and his rows stay although the checkpoint moves past the overwrite.
   */
  method LostCustomer() returns (b: CustomerBuilder)
    ensures fresh(b) && b.Valid() && b.checkpoint == Some(|b.log| - 1) && !b.interrupted
    ensures RowsOf(b.dim, 7) != map[] && !HasEvents(Events(b.log), 7) && !IsReplay(b.dim, b.log)
  {
    var streamed, extracted := ChangeAt(1, 7, 0, 10), ChangeAt(2, 8, 0, 20);
    b := StreamedCustomer(streamed);
    ghost var before := b.dim;
    b.ReplaceHistory([extracted]);
    assert b.log == [Appended([streamed]), Overwritten([extracted])];
    assert 7 !in Named(b.log, 1);
    OverwriteExact(before, b.log, 1);
    var moved := b.RunIncremental(true, false);
    assert RowsOf(b.dim, 7) != map[];
  }

  /** A full build over a history that only CDC has written. */
  method StreamedCustomer(streamed: Event) returns (b: CustomerBuilder)
    requires streamed == ChangeAt(1, 7, 0, 10)
    ensures fresh(b) && b.Valid() && b.Tracks() && b.checkpoint == Some(0) && !b.interrupted
    ensures b.log == [Appended([streamed])] && RowsOf(b.dim, 7) != map[]
  {
    b := new CustomerBuilder();
    b.AppendHistory([streamed]);
    b.RebuildAll(false);
    assert b.log[..0] == [];
    OneEventHasRows(streamed);
    assert Replayed(b.dim, b.log, 7);
  }

  lemma OneEventHasRows(e: Event)
    requires e == ChangeAt(1, 7, 0, 10)
    ensures ReplayOf([e], 7) != map[]
  {
    assert e in [e];
    EntityAnswers([e], 7, TYPE1, 0, e);
    assert e.hash in Answers(ReplayOf([e], 7), 0);
  }
}
