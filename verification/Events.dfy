/**
  Event listing (`tools/events.py`): filter, stable newest-first sort, truncation, and the
  multi-namespace fan-out that truncates each namespace before merging.

  `SortNewestFirst` stands for Python's `sort(key=..., reverse=True)`, which keeps the
  order of equal keys; `SortIsTheStableArrangement` pins it down independently.
*/
module Events {
  import opened Foundations

  /** Timestamps are seconds since the epoch. */
  datatype Event = Event(
    lastTimestamp: Option<int>, firstTimestamp: Option<int>, eventTime: Option<int>, created: Option<int>,
    eventType: string, payload: string)

  /** A rendered row; `ts` is the internal `_ts` field, `columns` the ones shown. */
  datatype Row = Row(ts: int, eventType: string, columns: string)

  function Ts(e: Event): int {
    match (e.lastTimestamp, e.firstTimestamp, e.eventTime, e.created)
    case (Some(t), _, _, _) => t
    case (None, Some(t), _, _) => t
    case (None, None, Some(t), _) => t
    case (None, None, None, Some(t)) => t
    case _ => 0
  }

  function EventType(e: Event): string {
    if e.eventType == "" then "Normal" else e.eventType
  }

  function RenderRow(e: Event): Row {
    Row(Ts(e), EventType(e), e.payload)
  }

  /** Python's `s[:limit]`: a negative limit drops that many elements from the end. */
  function Slice<T>(s: seq<T>, limit: int): seq<T>
  {
    if limit >= 0 then (if limit <= |s| then s[..limit] else s)
    else if -limit <= |s| then s[..|s| + limit]
    else []
  }

  // ----- Stable sort -------------------------------------------------------------------

  /** Puts `r`, which came before every element of `s`, in front of the equal ones. */
  function Insert(r: Row, s: seq<Row>): seq<Row>
  {
    if s == [] || s[0].ts <= r.ts then [r] + s else [s[0]] + Insert(r, s[1..])
  }

  function SortNewestFirst(s: seq<Row>): seq<Row>
  {
    if s == [] then [] else Insert(s[0], SortNewestFirst(s[1..]))
  }

  ghost predicate Sorted(s: seq<Row>) {
    forall i, j | 0 <= i < j < |s| :: s[i].ts >= s[j].ts
  }

  /** The rows stamped `ts`, in order: equal projections mean same rows with ties in the same order. */
  function At(ts: int, s: seq<Row>): seq<Row>
  {
    if s == [] then [] else (if s[0].ts == ts then [s[0]] else []) + At(ts, s[1..])
  }

  lemma {:induction false} InsertSorted(r: Row, s: seq<Row>)
    requires Sorted(s)
    ensures Sorted(Insert(r, s)) && forall ts :: At(ts, Insert(r, s)) == At(ts, [r] + s)
    ensures forall x <- Insert(r, s) :: x == r || x in s
  {
    if s == [] || s[0].ts <= r.ts {
    } else {
      var rest := s[1..];
      InsertSorted(r, rest);
      var t := Insert(r, rest);
      assert Insert(r, s) == [s[0]] + t;
      forall k | 0 <= k < |t| ensures t[k].ts <= s[0].ts {
        assert t[k] in t;
        assert t[k] == r || t[k] in rest;
      }
      forall ts ensures At(ts, [s[0]] + t) == At(ts, [r] + s) {
        assert ([s[0]] + t)[1..] == t && ([r] + s)[1..] == s && ([r] + rest)[1..] == rest;
        assert At(ts, t) == At(ts, [r] + rest);
      }
    }
  }

  lemma {:induction false} SortSorts(s: seq<Row>)
    ensures Sorted(SortNewestFirst(s)) && forall ts :: At(ts, SortNewestFirst(s)) == At(ts, s)
  {
    if s != [] {
      SortSorts(s[1..]);
      InsertSorted(s[0], SortNewestFirst(s[1..]));
      var t := SortNewestFirst(s[1..]);
      forall ts ensures At(ts, [s[0]] + t) == At(ts, s) {
        assert ([s[0]] + t)[1..] == t;
      }
    }
  }

  lemma {:induction false} AtMember(s: seq<Row>, i: nat)
    requires i < |s|
    ensures At(s[i].ts, s) != [] && forall x <- At(s[i].ts, s) :: x.ts == s[i].ts
  {
    AtOnly(s[i].ts, s);
    if i > 0 {
      AtMember(s[1..], i - 1);
    }
  }

  lemma {:induction false} AtOnly(ts: int, s: seq<Row>)
    ensures forall x <- At(ts, s) :: x.ts == ts && x in s
  {
    if s != [] { AtOnly(ts, s[1..]); }
  }

  lemma FirstIsAtItsTs(s: seq<Row>)
    ensures s != [] ==> s[0] in At(s[0].ts, s)
  {
  }

  /** A sorted list is determined by its projections: there is one stable arrangement. */
  lemma {:induction false} SortedUnique(a: seq<Row>, b: seq<Row>)
    requires Sorted(a) && Sorted(b) && forall ts :: At(ts, a) == At(ts, b)
    ensures a == b
  {
    if a == [] {
      FirstIsAtItsTs(b);
    } else {
      AtMember(a, 0);
      assert At(a[0].ts, b) != [];
      AtOnly(a[0].ts, b);
      assert b != [];
      AtMember(b, 0);
      AtOnly(b[0].ts, a);
      assert At(b[0].ts, a)[0] in a;
      assert At(a[0].ts, b)[0] in b;
      assert a[0].ts == b[0].ts;
      assert At(a[0].ts, a)[0] == a[0] && At(a[0].ts, b)[0] == b[0];
      forall ts ensures At(ts, a[1..]) == At(ts, b[1..]) {
        assert At(ts, a) == At(ts, b);
        if ts == a[0].ts {
          assert At(ts, a)[1..] == At(ts, a[1..]);
          assert At(ts, b)[1..] == At(ts, b[1..]);
        } else {
          assert At(ts, a) == At(ts, a[1..]);
          assert At(ts, b) == At(ts, b[1..]);
        }
      }
      SortedUnique(a[1..], b[1..]);
    }
  }

  /** Newest first, with the rows of `s` and ties in their order in `s`. */
  ghost predicate StableArrangement(t: seq<Row>, s: seq<Row>) {
    Sorted(t) && forall ts :: At(ts, t) == At(ts, s)
  }

  /** `SortNewestFirst(s)` is the one stable newest-first arrangement of `s`. */
  lemma SortIsTheStableArrangement(s: seq<Row>, t: seq<Row>)
    ensures t == SortNewestFirst(s) <==> StableArrangement(t, s)
  {
    SortSorts(s);
    if StableArrangement(t, s) {
      SortedUnique(t, SortNewestFirst(s));
    }
  }

  // ----- Merging ----------------------------------------------------------------------------

  /** Stable merge: on ties the left row comes first. */
  function Merge(a: seq<Row>, b: seq<Row>): seq<Row>
  {
    if a == [] then b
    else if b == [] then a
    else if a[0].ts >= b[0].ts then [a[0]] + Merge(a[1..], b)
    else [b[0]] + Merge(a, b[1..])
  }

  lemma {:induction false} MergeInsert(r: Row, a: seq<Row>, b: seq<Row>)
    requires Sorted(a) && Sorted(b)
    ensures Merge(Insert(r, a), b) == Insert(r, Merge(a, b))
  {
    if b == [] {
    } else if a == [] {
      if b[0].ts > r.ts {
        MergeInsert(r, a, b[1..]);
        assert Merge([r], b) == [b[0]] + Merge([r], b[1..]);
      } else {
        assert [r][1..] == [];
      }
    } else if a[0].ts <= r.ts {
      if b[0].ts > r.ts {
        MergeInsert(r, a, b[1..]);
        assert Insert(r, a) == [r] + a;
        assert Merge([r] + a, b) == [b[0]] + Merge([r] + a, b[1..]);
        assert Merge(a, b) == [b[0]] + Merge(a, b[1..]);
      } else {
        assert ([r] + a)[1..] == a;
        assert Merge([r] + a, b) == [r] + Merge(a, b);
      }
    } else {
      var t := Insert(r, a[1..]);
      assert ([a[0]] + t)[1..] == t;
      if a[0].ts >= b[0].ts {
        MergeInsert(r, a[1..], b);
        assert ([a[0]] + Merge(a[1..], b))[1..] == Merge(a[1..], b);
      } else {
        MergeInsert(r, a, b[1..]);
        assert ([b[0]] + Merge(a, b[1..]))[1..] == Merge(a, b[1..]);
      }
    }
  }

  lemma {:induction false} SortConcat(a: seq<Row>, b: seq<Row>)
    ensures SortNewestFirst(a + b) == Merge(SortNewestFirst(a), SortNewestFirst(b))
  {
    if a == [] {
      assert a + b == b;
    } else {
      SortConcat(a[1..], b);
      assert (a + b)[1..] == a[1..] + b;
      SortSorts(a[1..]);
      SortSorts(b);
      MergeInsert(a[0], SortNewestFirst(a[1..]), SortNewestFirst(b));
    }
  }

  function Take(s: seq<Row>, k: nat): seq<Row> {
    if k <= |s| then s[..k] else s
  }

  /** The first k of a merge only depend on the first k of each side. */
  lemma {:induction false} TakeMerge(a: seq<Row>, b: seq<Row>, k: nat)
    ensures Take(Merge(a, b), k) == Take(Merge(Take(a, k), Take(b, k)), k)
    decreases |a| + |b|
  {
    if k == 0 || a == [] || b == [] {
    } else if a[0].ts >= b[0].ts {
      TakeMergeLeft(a, b, k);
    } else {
      TakeMergeRight(a, b, k);
    }
  }

  lemma {:induction false} TakeMergeLeft(a: seq<Row>, b: seq<Row>, k: nat)
    requires k > 0 && a != [] && b != [] && a[0].ts >= b[0].ts
    ensures Take(Merge(a, b), k) == Take(Merge(Take(a, k), Take(b, k)), k)
    decreases |a| + |b|, 0
  {
    TakeMerge(a[1..], b, k - 1);
    TakeMerge(a[1..], Take(b, k), k - 1);
    assert Take(Take(b, k), k - 1) == Take(b, k - 1);
    var ta := Take(a, k);
    assert ta[0] == a[0] && Take(b, k)[0] == b[0] && ta[1..] == Take(a[1..], k - 1);
    TakeMerge(ta[1..], Take(b, k), k - 1);
    assert Take(ta[1..], k - 1) == ta[1..];
    assert Merge(a, b) == [a[0]] + Merge(a[1..], b);
    assert Merge(ta, Take(b, k)) == [a[0]] + Merge(ta[1..], Take(b, k));
    TakeCons(a[0], Merge(a[1..], b), k);
    TakeCons(a[0], Merge(ta[1..], Take(b, k)), k);
  }

  lemma {:induction false} TakeMergeRight(a: seq<Row>, b: seq<Row>, k: nat)
    requires k > 0 && a != [] && b != [] && a[0].ts < b[0].ts
    ensures Take(Merge(a, b), k) == Take(Merge(Take(a, k), Take(b, k)), k)
    decreases |a| + |b|, 0
  {
    TakeMerge(a, b[1..], k - 1);
    var tb := Take(b, k);
    assert tb[0] == b[0] && Take(a, k)[0] == a[0] && tb[1..] == Take(b[1..], k - 1);
    TakeMerge(Take(a, k), tb[1..], k - 1);
    assert Take(Take(a, k), k - 1) == Take(a, k - 1);
    assert Take(tb[1..], k - 1) == tb[1..];
    assert Merge(a, b) == [b[0]] + Merge(a, b[1..]);
    assert Merge(Take(a, k), tb) == [b[0]] + Merge(Take(a, k), tb[1..]);
    TakeCons(b[0], Merge(a, b[1..]), k);
    TakeCons(b[0], Merge(Take(a, k), tb[1..]), k);
  }

  lemma TakeCons(r: Row, s: seq<Row>, k: nat)
    requires k > 0
    ensures Take([r] + s, k) == [r] + Take(s, k - 1)
  {
  }

  // ----- Collecting -----------------------------------------------------------------------------

  predicate Wanted(e: Event, warningOnly: bool) {
    !warningOnly || EventType(e) == "Warning"
  }

  /** The rows of the wanted events, unsorted. */
  function WantedRows(events: seq<Event>, warningOnly: bool): seq<Row>
  {
    if events == [] then []
    else (if Wanted(events[0], warningOnly) then [RenderRow(events[0])] else []) + WantedRows(events[1..], warningOnly)
  }

  /** What `_collect_events` returns for one namespace: filter before slicing. */
  function Collected(events: seq<Event>, warningOnly: bool, limit: int): seq<Row> {
    Slice(SortNewestFirst(WantedRows(events, warningOnly)), limit)
  }

  lemma {:induction false} WantedRowsConcat(a: seq<Event>, b: seq<Event>, warningOnly: bool)
    ensures WantedRows(a + b, warningOnly) == WantedRows(a, warningOnly) + WantedRows(b, warningOnly)
  {
    if a == [] {
      assert a + b == b;
    } else {
      hide RenderRow, Wanted;
      WantedRowsConcat(a[1..], b, warningOnly);
      assert (a + b)[0] == a[0] && (a + b)[1..] == a[1..] + b;
      var first := if Wanted(a[0], warningOnly) then [RenderRow(a[0])] else [];
      assert first + (WantedRows(a[1..], warningOnly) + WantedRows(b, warningOnly))
          == (first + WantedRows(a[1..], warningOnly)) + WantedRows(b, warningOnly);
    }
  }

  method CollectEvents(items: seq<Event>, warningOnly: bool, limit: int) returns (rows: seq<Row>)
    ensures rows == Collected(items, warningOnly, limit)
  {
    var events: seq<Row> := [];
    for i := 0 to |items|
      invariant events == WantedRows(items[..i], warningOnly)
    {
      WantedRowsConcat(items[..i], [items[i]], warningOnly);
      assert items[..i + 1] == items[..i] + [items[i]];
      if !warningOnly || EventType(items[i]) == "Warning" {
        events := events + [RenderRow(items[i])];
      }
    }
    assert items[..|items|] == items;
    events := SortNewestFirst(events);
    events := Slice(events, limit);
    rows := events;
  }

  // ----- Fanning out -------------------------------------------------------------------------------

  function Flatten<T>(parts: seq<seq<T>>): seq<T>
  {
    if parts == [] then [] else Flatten(parts[..|parts| - 1]) + parts[|parts| - 1]
  }

  /** The rows of each namespace, in the order of the namespaces. */
  function CollectedPerNamespace(perNs: seq<seq<Event>>, warningOnly: bool, limit: int): seq<Row>
  {
    if perNs == [] then []
    else CollectedPerNamespace(perNs[..|perNs| - 1], warningOnly, limit) + Collected(perNs[|perNs| - 1], warningOnly, limit)
  }

  /** `_list_events_multi`, up to the rendering of the table. */
  method ListEventsMulti(perNs: seq<seq<Event>>, warningOnly: bool, limit: int) returns (merged: seq<Row>)
    ensures merged == Slice(SortNewestFirst(CollectedPerNamespace(perNs, warningOnly, limit)), limit)
  {
    merged := [];
    for i := 0 to |perNs|
      invariant merged == CollectedPerNamespace(perNs[..i], warningOnly, limit)
    {
      var rows := CollectEvents(perNs[i], warningOnly, limit);
      assert perNs[..i + 1][..i] == perNs[..i];
      merged := merged + rows;
    }
    assert perNs[..|perNs|] == perNs;
    merged := SortNewestFirst(merged);
    merged := Slice(merged, limit);
  }

  /** A sorted list is its own sort. */
  lemma SortOfSorted(s: seq<Row>)
    requires Sorted(s)
    ensures SortNewestFirst(s) == s
  {
    SortIsTheStableArrangement(s, s);
  }

  lemma {:induction false} MergeOfParts(perNs: seq<seq<Event>>, warningOnly: bool, limit: nat)
    ensures Take(SortNewestFirst(CollectedPerNamespace(perNs, warningOnly, limit)), limit)
         == Take(SortNewestFirst(WantedRows(Flatten(perNs), warningOnly)), limit)
  {
    if perNs != [] {
      var n := |perNs| - 1;
      var last := SortNewestFirst(WantedRows(perNs[n], warningOnly));
      var kept := Take(last, limit);
      var frontKept := CollectedPerNamespace(perNs[..n], warningOnly, limit);
      var frontAll := WantedRows(Flatten(perNs[..n]), warningOnly);
      SortSorts(WantedRows(perNs[n], warningOnly));
      SortOfSorted(kept);
      SortConcat(frontKept, kept);
      WantedRowsConcat(Flatten(perNs[..n]), perNs[n], warningOnly);
      SortConcat(frontAll, WantedRows(perNs[n], warningOnly));
      MergeOfParts(perNs[..n], warningOnly, limit);
      TakeMerge(SortNewestFirst(frontKept), kept, limit);
      TakeMerge(SortNewestFirst(frontAll), last, limit);
      assert Take(kept, limit) == kept;
    }
  }

  /** The merged answer equals filtering, sorting and truncating all events together. */
  ghost predicate MergeIsExact(perNs: seq<seq<Event>>, warningOnly: bool, limit: int)
  {
    Slice(SortNewestFirst(CollectedPerNamespace(perNs, warningOnly, limit)), limit)
    == Collected(Flatten(perNs), warningOnly, limit)
  }

  function PlainEvent(): Event {
    Event(None, None, None, None, "Warning", "")
  }

  function PlainEvents(n: nat): seq<Event> {
    seq(n, _ => PlainEvent())
  }

  lemma PlainEventsSplit(m: nat, n: nat)
    ensures PlainEvents(m) + PlainEvents(n) == PlainEvents(m + n)
  {
  }

  lemma {:induction false} PlainRows(n: nat, warningOnly: bool)
    ensures |SortNewestFirst(WantedRows(PlainEvents(n), warningOnly))| == n
  {
    if n > 0 {
      var s := PlainEvents(n);
      assert s[1..] == PlainEvents(n - 1);
      PlainRows(n - 1, warningOnly);
      InsertLength(RenderRow(PlainEvent()), SortNewestFirst(WantedRows(s[1..], warningOnly)));
      var rows := WantedRows(s, warningOnly);
      assert rows == [RenderRow(PlainEvent())] + WantedRows(s[1..], warningOnly);
      assert rows[1..] == WantedRows(s[1..], warningOnly);
    }
  }

  lemma {:induction false} InsertLength(r: Row, s: seq<Row>)
    ensures |Insert(r, s)| == |s| + 1
  {
    if s != [] { InsertLength(r, s[1..]); }
  }

  lemma FlattenTwo(a: seq<Event>, b: seq<Event>)
    ensures Flatten([a, b]) == a + b
  {
    assert [a, b][..1] == [a] && [a][..0] == [];
    assert Flatten([a]) == a;
  }

  lemma CollectTwo(a: seq<Event>, b: seq<Event>, warningOnly: bool, limit: int)
    ensures CollectedPerNamespace([a, b], warningOnly, limit) == Collected(a, warningOnly, limit) + Collected(b, warningOnly, limit)
  {
    assert [a, b][..1] == [a] && [a][..0] == [];
    hide Collected;
    assert CollectedPerNamespace([a], warningOnly, limit) == Collected(a, warningOnly, limit);
  }

  lemma CollectedPlain(n: nat, warningOnly: bool, limit: int)
    requires limit < 0
    ensures |Collected(PlainEvents(n), warningOnly, limit)| == if n + limit >= 0 then n + limit else 0
  {
    PlainRows(n, warningOnly);
    hide PlainEvents, WantedRows, SortNewestFirst;
  }

  /** With a negative limit even two quiet namespaces lose events that one listing keeps. */
  lemma NegativeLimitLosesEvents(limit: int, warningOnly: bool)
    requires limit < 0
    ensures !MergeIsExact([PlainEvents(1 - limit), PlainEvents(-limit)], warningOnly, limit)
  {
    var a, b := PlainEvents(1 - limit), PlainEvents(-limit);
    hide SortNewestFirst, WantedRows, Flatten, CollectedPerNamespace, PlainEvents, Collected;
    FlattenTwo(a, b);
    PlainEventsSplit(1 - limit, -limit);
    CollectedPlain(1 - 2 * limit, warningOnly, limit);
    assert |Collected(Flatten([a, b]), warningOnly, limit)| == 1 - limit;
    CollectTwo(a, b, warningOnly, limit);
    CollectedPlain(1 - limit, warningOnly, limit);
    CollectedPlain(-limit, warningOnly, limit);
    var kept := CollectedPerNamespace([a, b], warningOnly, limit);
    SortLength(kept);
    assert |Slice(SortNewestFirst(kept), limit)| == 0;
  }

  lemma {:induction false} SortLength(s: seq<Row>)
    ensures |SortNewestFirst(s)| == |s|
  {
    if s != [] {
      SortLength(s[1..]);
      InsertLength(s[0], SortNewestFirst(s[1..]));
    }
  }

  /**
    Truncating every namespace before merging gives exactly the global answer, ties included,
    for all event streams if and only if the limit is not negative.
  */
  lemma MergeIsExactIff(warningOnly: bool, limit: int)
    ensures (forall perNs :: MergeIsExact(perNs, warningOnly, limit)) <==> limit >= 0
  {
    if limit >= 0 {
      forall perNs ensures MergeIsExact(perNs, warningOnly, limit) {
        MergeOfParts(perNs, warningOnly, limit);
      }
    } else {
      NegativeLimitLosesEvents(limit, warningOnly);
    }
  }

  /**
    `warning_only` never loses a Warning: the answer is the newest `limit` of all Warnings in
    all namespaces, whatever Normal events surround them.
  */
  lemma WarningsSurviveNormals(perNs: seq<seq<Event>>, limit: nat, r: Row)
    requires r in Take(SortNewestFirst(WantedRows(Flatten(perNs), true)), limit)
    ensures r in Slice(SortNewestFirst(CollectedPerNamespace(perNs, true, limit)), limit)
    ensures r.eventType == "Warning"
  {
    MergeOfParts(perNs, true, limit);
    SortedRowsAreWanted(WantedRows(Flatten(perNs), true));
    WantedRowsAreWarnings(Flatten(perNs));
  }

  lemma {:induction false} SortedRowsAreWanted(s: seq<Row>)
    ensures forall x <- SortNewestFirst(s) :: x in s
  {
    if s != [] {
      SortedRowsAreWanted(s[1..]);
      SortSorts(s[1..]);
      InsertSorted(s[0], SortNewestFirst(s[1..]));
    }
  }

  lemma {:induction false} WantedRowsAreWarnings(events: seq<Event>)
    ensures forall x <- WantedRows(events, true) :: x.eventType == "Warning"
  {
    if events != [] { WantedRowsAreWarnings(events[1..]); }
  }

  // ----- Which events are listed, and how ------------------------------------------------------------

  /** What a row shows of an event, and under which stamp: the first of its four times that is set. */
  ghost predicate Shows(r: Row, e: Event) {
    && r.columns == e.payload
    && (e.eventType != "" ==> r.eventType == e.eventType) && (e.eventType == "" ==> r.eventType == "Normal")
    && (e.lastTimestamp.Some? ==> r.ts == e.lastTimestamp.value)
    && (e.lastTimestamp.None? && e.firstTimestamp.Some? ==> r.ts == e.firstTimestamp.value)
    && (e.lastTimestamp.None? && e.firstTimestamp.None? && e.eventTime.Some? ==> r.ts == e.eventTime.value)
    && (e.lastTimestamp.None? && e.firstTimestamp.None? && e.eventTime.None? && e.created.Some? ==> r.ts == e.created.value)
    && (e.lastTimestamp.None? && e.firstTimestamp.None? && e.eventTime.None? && e.created.None? ==> r.ts == 0)
  }

  /** `rows` shows, in order and once each, the Warnings, or all events; `ps` are their positions. */
  ghost predicate RowsOf(events: seq<Event>, warningOnly: bool, rows: seq<Row>, ps: seq<nat>)
  {
    && |rows| == |ps| && Increasing(ps)
    && (forall i | 0 <= i < |ps| :: ps[i] < |events| && Shows(rows[i], events[ps[i]]))
    && (forall k | 0 <= k < |events| :: (!warningOnly || events[k].eventType == "Warning") <==> k in ps)
  }

  lemma {:induction false} WantedSelects(events: seq<Event>, warningOnly: bool) returns (ps: seq<nat>)
    ensures Selects(events, (e: Event) => Wanted(e, warningOnly), (e: Event) => RenderRow(e), WantedRows(events, warningOnly), ps)
  {
    ps := [];
    if events != [] {
      var n := |events| - 1;
      var front, last := events[..n], events[n];
      ps := WantedSelects(front, warningOnly);
      assert events == front + [last];
      WantedRowsConcat(front, [last], warningOnly);
      hide RenderRow, Wanted;
      assert WantedRows([last], warningOnly) == if Wanted(last, warningOnly) then [RenderRow(last)] else [] by { assert [last][1..] == []; }
      SelectsOneMore(front, last, (e: Event) => Wanted(e, warningOnly), (e: Event) => RenderRow(e), WantedRows(front, warningOnly), ps);
      hide Selects;
      if Wanted(last, warningOnly) { ps := ps + [n]; }
    }
  }

  lemma WantedRowsShow(events: seq<Event>, warningOnly: bool) returns (ps: seq<nat>)
    ensures RowsOf(events, warningOnly, WantedRows(events, warningOnly), ps)
  {
    ps := WantedSelects(events, warningOnly);
    hide WantedRows, Increasing;
  }

  lemma {:induction false} SortKeepsRows(s: seq<Row>)
    ensures multiset(SortNewestFirst(s)) == multiset(s)
  {
    if s != [] {
      SortKeepsRows(s[1..]);
      InsertKeepsRows(s[0], SortNewestFirst(s[1..]));
      assert s == [s[0]] + s[1..];
    }
  }

  lemma {:induction false} InsertKeepsRows(r: Row, s: seq<Row>)
    ensures multiset(Insert(r, s)) == multiset(s) + multiset{r}
  {
    if s != [] {
      InsertKeepsRows(r, s[1..]);
      assert s == [s[0]] + s[1..];
    }
  }

  /** Python slicing: how many elements `s[:limit]` keeps from the front. */
  lemma SliceIsPrefix<T>(s: seq<T>, limit: int)
    ensures Slice(s, limit) <= s
    ensures limit >= 0 ==> |Slice(s, limit)| == if limit <= |s| then limit else |s|
    ensures limit < 0 ==> |Slice(s, limit)| == if -limit <= |s| then |s| + limit else 0
  {
  }

  /** What one namespace's answer is: the first rows of the stable newest-first arrangement of its wanted events. */
  lemma CollectedIs(events: seq<Event>, warningOnly: bool, limit: int) returns (rows: seq<Row>, ps: seq<nat>, sorted: seq<Row>)
    ensures RowsOf(events, warningOnly, rows, ps)
    ensures multiset(sorted) == multiset(rows) && Sorted(sorted) && forall ts :: At(ts, sorted) == At(ts, rows)
    ensures Collected(events, warningOnly, limit) <= sorted
    ensures limit >= 0 ==> |Collected(events, warningOnly, limit)| == if limit <= |ps| then limit else |ps|
    ensures limit < 0 ==> |Collected(events, warningOnly, limit)| == if -limit <= |ps| then |ps| + limit else 0
  {
    rows := WantedRows(events, warningOnly);
    ps := WantedRowsShow(events, warningOnly);
    sorted := SortNewestFirst(rows);
    SortKeepsRows(rows);
    SortSorts(rows);
    SliceIsPrefix(sorted, limit);
    assert |sorted| == |multiset(sorted)| == |multiset(rows)| == |rows|;
    hide RowsOf, WantedRows, SortNewestFirst, Slice, At;
  }

  /** Every event of every namespace occurs in the concatenation, and nothing else does. */
  lemma {:induction false} FlattenKeepsEvents(perNs: seq<seq<Event>>, e: Event)
    ensures e in Flatten(perNs) <==> exists i | 0 <= i < |perNs| :: e in perNs[i]
  {
    if perNs != [] {
      var n := |perNs| - 1;
      FlattenKeepsEvents(perNs[..n], e);
      if i :| 0 <= i < |perNs| && e in perNs[i] {
        if i < n { assert perNs[..n][i] == perNs[i]; }
      }
    }
  }

  /**
    What the multi-namespace answer is, for a limit that is not negative: the first rows of the
    stable newest-first arrangement of the wanted events of all namespaces together.
  */
  lemma ListedEventsAre(perNs: seq<seq<Event>>, warningOnly: bool, limit: nat) returns (rows: seq<Row>, ps: seq<nat>, sorted: seq<Row>)
    ensures RowsOf(Flatten(perNs), warningOnly, rows, ps)
    ensures multiset(sorted) == multiset(rows) && Sorted(sorted) && forall ts :: At(ts, sorted) == At(ts, rows)
    ensures
      var listed := Slice(SortNewestFirst(CollectedPerNamespace(perNs, warningOnly, limit)), limit);
      listed <= sorted && |listed| == if limit <= |ps| then limit else |ps|
  {
    MergeIsExactIff(warningOnly, limit);
    assert MergeIsExact(perNs, warningOnly, limit);
    rows, ps, sorted := CollectedIs(Flatten(perNs), warningOnly, limit);
  }

  /** So with room for all of them, every wanted event of every namespace has its row in the answer. */
  lemma NoEventIsLost(perNs: seq<seq<Event>>, warningOnly: bool, limit: nat, i: nat, e: Event)
    requires limit >= |Flatten(perNs)| && i < |perNs| && e in perNs[i]
    requires !warningOnly || e.eventType == "Warning"
    ensures exists r <- Slice(SortNewestFirst(CollectedPerNamespace(perNs, warningOnly, limit)), limit) :: Shows(r, e)
  {
    var listed := Slice(SortNewestFirst(CollectedPerNamespace(perNs, warningOnly, limit)), limit);
    FlattenKeepsEvents(perNs, e);
    var all := Flatten(perNs);
    var rows, ps, sorted := ListedEventsAre(perNs, warningOnly, limit);
    hide Flatten, SortNewestFirst, CollectedPerNamespace, Slice, At, Sorted, Shows;
    PositionsFit(ps, |all|);
    assert |sorted| == |multiset(sorted)| == |multiset(rows)| == |rows|;
    assert listed == sorted;
    var k :| 0 <= k < |all| && all[k] == e;
    assert k in ps;
    var m :| 0 <= m < |ps| && ps[m] == k;
    assert rows[m] in multiset(rows);
    assert rows[m] in listed && Shows(rows[m], e);
  }

  lemma {:induction false} PositionsFit(ps: seq<nat>, n: nat)
    requires Increasing(ps) && forall i | 0 <= i < |ps| :: ps[i] < n
    ensures |ps| <= n
  {
    if ps != [] {
      var m := |ps| - 1;
      PositionsFit(ps[..m], ps[m]);
    }
  }
}
