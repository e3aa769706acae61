/** Recording AI usage (backend/internal/rag/usage_metrics.go): a table of events and a table of daily totals,
    changed together in one transaction. Times are in seconds since 1970. */
module UsageLedger {
  import opened Documents
  import Text

  const UNKNOWN := "unknown"
  const SUCCESS := "success"
  const SECONDS_PER_DAY := 86_400

  /** The columns that matter for the totals; the zero time is `None`. */
  datatype Event = Event(
    id: string, createdAt: Option<int>, names: Names, source: string, status: string, counts: Counts)

  datatype Names = Names(flow: string, operation: string, mode: string, provider: string, model: string)

  datatype Counts = Counts(inputChars: int, outputChars: int, inputTokens: int, outputTokens: int, totalTokens: int,
                           duration: int) {
    function Plus(other: Counts): Counts {
      Counts(inputChars + other.inputChars, outputChars + other.outputChars, inputTokens + other.inputTokens,
             outputTokens + other.outputTokens, totalTokens + other.totalTokens, duration + other.duration)
    }

    predicate NotNegative() {
      inputChars >= 0 && outputChars >= 0 && inputTokens >= 0 && outputTokens >= 0 && totalTokens >= 0 && duration >= 0
    }
  }

  function AtLeastZero(n: int): nat { if n < 0 then 0 else n }

  function OrElse(s: string, fallback: string): string { if s == "" then fallback else s }

  // ----- Sanitising -----

  function CleanNames(n: Names): Names {
    Names(Text.TrimSpace(n.flow), Text.TrimSpace(n.operation), Text.TrimSpace(n.mode),
          OrElse(Text.TrimSpace(n.provider), UNKNOWN), OrElse(Text.TrimSpace(n.model), UNKNOWN))
  }

  function CleanCounts(c: Counts): (r: Counts)
    ensures r.NotNegative()
    ensures c.NotNegative() && c.totalTokens > 0 ==> r == c
    ensures c.totalTokens <= 0 ==> r.totalTokens == r.inputTokens + r.outputTokens
  {
    var input, output, total := AtLeastZero(c.inputTokens), AtLeastZero(c.outputTokens), AtLeastZero(c.totalTokens);
    Counts(AtLeastZero(c.inputChars), AtLeastZero(c.outputChars), input, output,
           if total == 0 then input + output else total, AtLeastZero(c.duration))
  }

  /** The event as it is stored, or none when flow, operation or mode is blank. `now` and `newID` are the clock
      and the random id. */
  function Sanitize(e: Event, now: int, newID: string): Option<Event> {
    var names := CleanNames(e.names);
    if names.flow == "" || names.operation == "" || names.mode == "" then None
    else Some(Event(OrElse(e.id, newID), Some(if e.createdAt.Some? then e.createdAt.value else now), names,
                    OrElse(Text.TrimSpace(e.source), UNKNOWN), OrElse(Text.TrimSpace(e.status), SUCCESS),
                    CleanCounts(e.counts)))
  }

  /** Storing a sanitised event again would change nothing in it, whatever the clock and the random id. */
  lemma SanitizeIsIdempotent(e: Event, now: int, newID: string, later: int, otherID: string)
    requires newID != "" && Sanitize(e, now, newID).Some?
    ensures Sanitize(Sanitize(e, now, newID).value, later, otherID) == Sanitize(e, now, newID)
  {
    var clean := Sanitize(e, now, newID).value;
    TrimTwice(e.names.flow, "");
    TrimTwice(e.names.operation, "");
    TrimTwice(e.names.mode, "");
    TrimTwice(e.names.provider, UNKNOWN);
    TrimTwice(e.names.model, UNKNOWN);
    TrimTwice(e.source, UNKNOWN);
    TrimTwice(e.status, SUCCESS);
    hide Text.TrimSpace;
  }

  /** Text without white space around it. */
  predicate Tidy(s: string) { s != "" && Text.TrimSpace(s) == s }

  /** What an event means once blank fields are filled in. */
  function Filled(s: string, fallback: string): string {
    if Text.TrimSpace(s) == "" then fallback else Text.TrimSpace(s)
  }

  /** An event that is tidy already is stored as it is, with its own status, names, time and counts. */
  lemma TidyEventsAreStoredAsTheyAre(e: Event, now: int, newID: string)
    requires e.id != "" && e.createdAt.Some?
    requires Tidy(e.names.flow) && Tidy(e.names.operation) && Tidy(e.names.mode) && Tidy(e.names.provider)
    requires Tidy(e.names.model) && Tidy(e.source) && Tidy(e.status)
    requires e.counts.NotNegative() && e.counts.totalTokens > 0
    ensures Sanitize(e, now, newID) == Some(e)
  {
    hide Text.TrimSpace;
  }

  /** Any other event is refused for lack of a flow, an operation or a mode, or stored like the tidy event it means: a
      missing id, time, provider, model, source, status or total is filled in, negative numbers count as zero. */
  lemma OtherEventsAreTidied(e: Event, now: int, newID: string)
    ensures Sanitize(e, now, newID).None?
            <==> || Text.TrimSpace(e.names.flow) == "" || Text.TrimSpace(e.names.operation) == ""
                 || Text.TrimSpace(e.names.mode) == ""
    ensures Sanitize(e, now, newID).Some? ==>
              var s := Sanitize(e, now, newID).value;
              && s.id == (if e.id == "" then newID else e.id)
              && s.createdAt == (if e.createdAt.None? then Some(now) else e.createdAt)
              && s.names == Names(Text.TrimSpace(e.names.flow), Text.TrimSpace(e.names.operation),
                                  Text.TrimSpace(e.names.mode), Filled(e.names.provider, "unknown"),
                                  Filled(e.names.model, "unknown"))
              && s.source == Filled(e.source, "unknown") && s.status == Filled(e.status, "success")
              && s.counts.inputTokens == (if e.counts.inputTokens < 0 then 0 else e.counts.inputTokens)
              && s.counts.outputTokens == (if e.counts.outputTokens < 0 then 0 else e.counts.outputTokens)
              && s.counts.inputChars == (if e.counts.inputChars < 0 then 0 else e.counts.inputChars)
              && s.counts.outputChars == (if e.counts.outputChars < 0 then 0 else e.counts.outputChars)
              && s.counts.duration == (if e.counts.duration < 0 then 0 else e.counts.duration)
              && s.counts.totalTokens == (if e.counts.totalTokens > 0 then e.counts.totalTokens
                                          else s.counts.inputTokens + s.counts.outputTokens)
  {
    hide Text.TrimSpace;
  }

  lemma TrimTwice(s: string, fallback: string)
    requires fallback == "" || fallback == UNKNOWN || fallback == SUCCESS
    ensures OrElse(Text.TrimSpace(OrElse(Text.TrimSpace(s), fallback)), fallback) == OrElse(Text.TrimSpace(s), fallback)
  {
    Text.TrimSpaceFixedPoints(s);
    Text.TrimSpaceFixedPoints(Text.TrimSpace(s));
    Text.TrimSpaceFixedPoints(fallback);
  }

  // ----- The two tables -----

  datatype Key = Key(day: int, names: Names)
  datatype Row = Row(events: nat, successes: nat, errors: nat, sums: Counts)
  datatype Tables = Tables(events: seq<Event>, daily: map<Key, Row>)

  const NO_EVENTS := Row(0, 0, 0, Counts(0, 0, 0, 0, 0, 0))

  function KeyOf(e: Event): Key {
    Key((if e.createdAt.Some? then e.createdAt.value else 0) / SECONDS_PER_DAY, e.names)
  }

  function Counted(r: Row, e: Event): Row {
    Row(r.events + 1, r.successes + (if e.status == SUCCESS then 1 else 0),
        r.errors + (if e.status == SUCCESS then 0 else 1),
        r.sums.Plus(e.counts))
  }

  /** The totals of the events with the given key, straight from the event table. */
  function GroupBy(events: seq<Event>, key: Key): Row {
    if events == [] then NO_EVENTS
    else
      var before, e := GroupBy(events[..|events| - 1], key), events[|events| - 1];
      if KeyOf(e) == key then Counted(before, e) else before
  }

  /** A row's day is the one the event's time falls in. */
  lemma DayHoldsTime(e: Event)
    requires e.createdAt.Some?
    ensures KeyOf(e).names == e.names
    ensures KeyOf(e).day * 86_400 <= e.createdAt.value < (KeyOf(e).day + 1) * 86_400
  {
  }

  /** INSERT ... ON CONFLICT DO UPDATE on the daily table. */
  function UpsertDaily(daily: map<Key, Row>, e: Event): map<Key, Row> {
    var key := KeyOf(e);
    daily[key := Counted(if key in daily then daily[key] else NO_EVENTS, e)]
  }

  predicate HasID(events: seq<Event>, id: string) {
    exists i :: 0 <= i < |events| && events[i].id == id
  }

  predicate Occurs(events: seq<Event>, key: Key) {
    exists i :: 0 <= i < |events| && KeyOf(events[i]) == key
  }

  ghost predicate ProperEvents(events: seq<Event>) {
    && (forall i, j | 0 <= i < j < |events| :: events[i].id != events[j].id)
    && (forall i | 0 <= i < |events| :: events[i].counts.NotNegative())
  }

  /** The daily table is the event table grouped by key, with a row for every key that occurs. */
  ghost predicate Consistent(t: Tables) {
    && ProperEvents(t.events)
    && (forall key :: key in t.daily <==> Occurs(t.events, key))
    && (forall key | key in t.daily :: t.daily[key] == GroupBy(t.events, key))
  }

  lemma StoringKeepsConsistent(t: Tables, e: Event)
    requires Consistent(t) && !HasID(t.events, e.id) && e.counts.NotNegative()
    ensures Consistent(Tables(t.events + [e], UpsertDaily(t.daily, e)))
  {
    var events := t.events + [e];
    assert ProperEvents(events) by {
      hide KeyOf, Occurs;
    }
    if KeyOf(e) !in t.daily {
      AbsentKeysAreEmpty(t.events, KeyOf(e));
    }
    hide ProperEvents, Counted, KeyOf;
    forall key: Key
      ensures Occurs(events, key) <==> key == KeyOf(e) || Occurs(t.events, key)
      ensures GroupBy(events, key)
              == if key == KeyOf(e) then Counted(GroupBy(t.events, key), e) else GroupBy(t.events, key)
    {
      AfterOneMore(t.events, e, key);
    }
    hide Occurs, GroupBy;
  }

  lemma AfterOneMore(events: seq<Event>, e: Event, key: Key)
    ensures Occurs(events + [e], key) <==> key == KeyOf(e) || Occurs(events, key)
    ensures GroupBy(events + [e], key)
            == if key == KeyOf(e) then Counted(GroupBy(events, key), e) else GroupBy(events, key)
  {
    hide Counted, KeyOf;
    var all := events + [e];
    assert all[..|events|] == events && all[|events|] == e;
    if Occurs(events, key) {
      var i :| 0 <= i < |events| && KeyOf(events[i]) == key;
      assert all[i] == events[i];
    }
  }

  lemma {:induction false} AbsentKeysAreEmpty(events: seq<Event>, key: Key)
    requires !Occurs(events, key)
    ensures GroupBy(events, key) == NO_EVENTS
    decreases |events|
  {
    if events != [] {
      assert KeyOf(events[|events| - 1]) != key;
      AbsentKeysAreEmpty(events[..|events| - 1], key);
    }
  }

  /** In a daily row, successes and errors add up to the events, and no sum is negative. */
  lemma {:induction false} RowsBalance(events: seq<Event>, key: Key)
    requires forall i | 0 <= i < |events| :: events[i].counts.NotNegative()
    ensures var r := GroupBy(events, key); r.events == r.successes + r.errors && r.sums.NotNegative()
    decreases |events|
  {
    if events != [] {
      RowsBalance(events[..|events| - 1], key);
    }
  }

  /** The sum of one column over the events with the given key. */
  function ColumnSum(events: seq<Event>, key: Key, column: Event -> int): int {
    if events == [] then 0
    else
      var e := events[|events| - 1];
      ColumnSum(events[..|events| - 1], key, column) + if KeyOf(e) == key then column(e) else 0
  }

  /** Every number of a daily row is the sum of its own column. */
  lemma {:induction false} RowsAreColumnSums(events: seq<Event>, key: Key)
    ensures var r := GroupBy(events, key);
            && r.events == ColumnSum(events, key, (e: Event) => 1)
            && r.successes == ColumnSum(events, key, (e: Event) => if e.status == "success" then 1 else 0)
            && r.errors == ColumnSum(events, key, (e: Event) => if e.status != "success" then 1 else 0)
            && r.sums.inputChars == ColumnSum(events, key, (e: Event) => e.counts.inputChars)
            && r.sums.outputChars == ColumnSum(events, key, (e: Event) => e.counts.outputChars)
            && r.sums.inputTokens == ColumnSum(events, key, (e: Event) => e.counts.inputTokens)
            && r.sums.outputTokens == ColumnSum(events, key, (e: Event) => e.counts.outputTokens)
            && r.sums.totalTokens == ColumnSum(events, key, (e: Event) => e.counts.totalTokens)
            && r.sums.duration == ColumnSum(events, key, (e: Event) => e.counts.duration)
    decreases |events|
  {
    if events != [] {
      RowsAreColumnSums(events[..|events| - 1], key);
    }
  }

  class UsageStore {
    var tables: Tables

    constructor ()
      ensures Valid() && tables == Tables([], map[])
    {
      tables := Tables([], map[]);
    }

    ghost predicate Valid()
      reads this
    {
      Consistent(tables)
    }

    /** One transaction of two statements. `alive(n)` says whether the n-th step (begin, insert, upsert, commit) is
        carried out; when it is not, or the id is taken, everything is rolled back. */
    method RecordUsageEvent(event: Event, now: int, newID: string, alive: nat -> bool) returns (ok: bool)
      requires Valid()
      modifies this
      ensures Valid()
      ensures !ok ==> tables == old(tables)
      ensures ok ==> var clean := Sanitize(event, now, newID);
                     && clean.Some? && !HasID(old(tables).events, clean.value.id)
                     && tables.events == old(tables).events + [clean.value]
      ensures var clean := Sanitize(event, now, newID);
              (forall n :: alive(n)) && clean.Some? && !HasID(old(tables).events, clean.value.id) ==> ok
    {
      hide UpsertDaily, Consistent;
      var clean := Sanitize(event, now, newID);
      if clean.None? || !alive(0) {
        return false;
      }
      var e := clean.value;
      if HasID(tables.events, e.id) || !alive(1) {
        return false;
      }
      var events := tables.events + [e];
      if !alive(2) {
        return false;
      }
      var daily := UpsertDaily(tables.daily, e);
      if !alive(3) {
        return false;
      }
      StoringKeepsConsistent(tables, e);
      tables := Tables(events, daily);
      return true;
    }
  }
}
