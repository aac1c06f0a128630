/** Time-ordered selection on plain integers: the meaning of a range query. */
module Timeline {

  datatype Item<P> = Item(at: int, id: nat, data: P)

  /** Oldest first, same instant in insertion order. */
  predicate Precedes<P>(a: Item<P>, b: Item<P>) {
    a.at < b.at || (a.at == b.at && a.id < b.id)
  }

  predicate Within<P>(a: Item<P>, from: int, to: int) {
    from <= a.at <= to
  }

  function Window<P>(items: seq<Item<P>>, from: int, to: int): seq<Item<P>> {
    if items == [] then []
    else (if Within(items[0], from, to) then [items[0]] else []) + Window(items[1..], from, to)
  }

  function Insert<P>(a: Item<P>, sorted: seq<Item<P>>): seq<Item<P>> {
    if sorted == [] then [a]
    else if Precedes(a, sorted[0]) then [a] + sorted
    else [sorted[0]] + Insert(a, sorted[1..])
  }

  function Order<P>(items: seq<Item<P>>): seq<Item<P>> {
    if items == [] then [] else Insert(items[0], Order(items[1..]))
  }

  ghost predicate Chronological<P>(items: seq<Item<P>>) {
    forall i, j :: 0 <= i < j < |items| ==> Precedes(items[i], items[j])
  }

  ghost predicate DistinctIds<P>(items: seq<Item<P>>) {
    forall i, j :: 0 <= i < j < |items| ==> items[i].id != items[j].id
  }

  lemma {:induction false} WindowHolds<P>(items: seq<Item<P>>, from: int, to: int, x: Item<P>)
    ensures x in Window(items, from, to) <==> x in items && Within(x, from, to)
  {
    if items != [] {
      WindowHolds(items[1..], from, to, x);
      assert items == [items[0]] + items[1..];
    }
  }

  lemma {:induction false} WindowDistinct<P>(items: seq<Item<P>>, from: int, to: int)
    requires DistinctIds(items)
    ensures DistinctIds(Window(items, from, to))
  {
    if items != [] {
      var rest := Window(items[1..], from, to);
      WindowDistinct(items[1..], from, to);
      forall k | 0 <= k < |rest| ensures rest[k].id != items[0].id {
        WindowHolds(items[1..], from, to, rest[k]);
      }
    }
  }

  lemma {:induction false} InsertHolds<P>(a: Item<P>, sorted: seq<Item<P>>, x: Item<P>)
    ensures x in Insert(a, sorted) <==> x == a || x in sorted
  {
    if sorted != [] {
      InsertHolds(a, sorted[1..], x);
      assert sorted == [sorted[0]] + sorted[1..];
    }
  }

  lemma {:induction false} InsertSorts<P>(a: Item<P>, sorted: seq<Item<P>>)
    requires Chronological(sorted) && forall i :: 0 <= i < |sorted| ==> sorted[i].id != a.id
    ensures Chronological(Insert(a, sorted)) && |Insert(a, sorted)| == |sorted| + 1
  {
    if sorted != [] && !Precedes(a, sorted[0]) {
      InsertSorts(a, sorted[1..]);
      var rest := Insert(a, sorted[1..]);
      forall k | 0 <= k < |rest| ensures Precedes(sorted[0], rest[k]) {
        InsertHolds(a, sorted[1..], rest[k]);
      }
    }
  }

  lemma {:induction false} OrderHolds<P>(items: seq<Item<P>>, x: Item<P>)
    ensures x in Order(items) <==> x in items
  {
    if items != [] {
      OrderHolds(items[1..], x);
      InsertHolds(items[0], Order(items[1..]), x);
      assert items == [items[0]] + items[1..];
    }
  }

  lemma {:induction false} OrderSorts<P>(items: seq<Item<P>>)
    requires DistinctIds(items)
    ensures Chronological(Order(items)) && |Order(items)| == |items|
  {
    if items != [] {
      OrderSorts(items[1..]);
      var rest := Order(items[1..]);
      forall i | 0 <= i < |rest| ensures rest[i].id != items[0].id {
        OrderHolds(items[1..], rest[i]);
      }
      InsertSorts(items[0], rest);
    }
  }

  /** Selecting a window and ordering it loses nothing and adds nothing. */
  lemma WindowInOrder<P(!new)>(items: seq<Item<P>>, from: int, to: int)
    requires DistinctIds(items)
    ensures var hits := Order(Window(items, from, to));
            Chronological(hits) && forall x :: x in hits <==> x in items && Within(x, from, to)
  {
    WindowDistinct(items, from, to);
    OrderSorts(Window(items, from, to));
    forall x ensures x in Order(Window(items, from, to)) <==> x in items && Within(x, from, to) {
      OrderHolds(Window(items, from, to), x);
      WindowHolds(items, from, to, x);
    }
  }
}

/** The samples table: timestamps are stored and compared as text. */
module Samples {
  import opened Decimal
  import opened Timestamps
  import opened Timeline

  /** A stored sample: its text timestamp, the time that text was written for, and everything else. */
  datatype Row<P> = Row(id: nat, ts: string, at: Civil, data: P)
  {
    predicate Written() { at.Valid() && ts == Format(at) }
  }

  const MAX_ROWS := 50000

  ghost predicate AllWritten<P>(rows: seq<Row<P>>) {
    forall i :: 0 <= i < |rows| ==> rows[i].Written()
  }

  ghost predicate IdsIncrease<P>(rows: seq<Row<P>>) {
    forall i, j :: 0 <= i < j < |rows| ==> rows[i].id < rows[j].id
  }

  // ----- the statements as the database runs them: comparing text

  predicate TextInRange<P>(r: Row<P>, from: string, to: string) {
    !Less(r.ts, from) && !Less(to, r.ts)
  }

  predicate TextPrecedes<P>(a: Row<P>, b: Row<P>) {
    Less(a.ts, b.ts) || (a.ts == b.ts && a.id < b.id)
  }

  function TextFilter<P>(rows: seq<Row<P>>, from: string, to: string): seq<Row<P>> {
    if rows == [] then []
    else (if TextInRange(rows[0], from, to) then [rows[0]] else []) + TextFilter(rows[1..], from, to)
  }

  function TextInsert<P>(r: Row<P>, sorted: seq<Row<P>>): seq<Row<P>> {
    if sorted == [] then [r]
    else if TextPrecedes(r, sorted[0]) then [r] + sorted
    else [sorted[0]] + TextInsert(r, sorted[1..])
  }

  function TextOrder<P>(rows: seq<Row<P>>): seq<Row<P>> {
    if rows == [] then [] else TextInsert(rows[0], TextOrder(rows[1..]))
  }

  function FirstRows<T>(s: seq<T>): seq<T> {
    if |s| <= MAX_ROWS then s else s[..MAX_ROWS]
  }

  function Query<P>(rows: seq<Row<P>>, from: Civil, to: Civil): seq<Row<P>> {
    FirstRows(TextOrder(TextFilter(rows, Format(from), Format(to))))
  }

  function Pruned<P>(rows: seq<Row<P>>, before: string): seq<Row<P>> {
    if rows == [] then []
    else (if Less(rows[0].ts, before) then [] else [rows[0]]) + Pruned(rows[1..], before)
  }

  // ----- the text statements mean the integer ones

  function AsItem<P>(r: Row<P>): Item<Row<P>> {
    Item(Instant(r.at), r.id, r)
  }

  function AsItems<P>(rows: seq<Row<P>>): (items: seq<Item<Row<P>>>)
    ensures |items| == |rows|
    ensures forall i :: 0 <= i < |rows| ==> items[i] == AsItem(rows[i])
  {
    if rows == [] then [] else [AsItem(rows[0])] + AsItems(rows[1..])
  }

  lemma RangeMeans<P>(r: Row<P>, from: Civil, to: Civil)
    requires r.Written() && from.Valid() && to.Valid()
    ensures TextInRange(r, Format(from), Format(to)) <==> Within(AsItem(r), Instant(from), Instant(to))
  {
    TextOrderIsTimeOrder(r.at, from);
    TextOrderIsTimeOrder(to, r.at);
  }

  lemma OrderMeans<P>(a: Row<P>, b: Row<P>)
    requires a.Written() && b.Written()
    ensures TextPrecedes(a, b) <==> Precedes(AsItem(a), AsItem(b))
  {
    TextOrderIsTimeOrder(a.at, b.at);
    TextOrderIsTimeOrder(b.at, a.at);
    LessIrreflexive(a.ts);
    if a.ts == b.ts {
      ParseInvertsFormat(a.at, 9);
      ParseInvertsFormat(b.at, 9);
    } else {
      EarlierIsBefore(a.at, b.at);
    }
  }

  lemma {:induction false} FilterMeans<P>(rows: seq<Row<P>>, from: Civil, to: Civil)
    requires AllWritten(rows) && from.Valid() && to.Valid()
    ensures AsItems(TextFilter(rows, Format(from), Format(to))) == Window(AsItems(rows), Instant(from), Instant(to))
    ensures AllWritten(TextFilter(rows, Format(from), Format(to)))
  {
    if rows != [] {
      RangeMeans(rows[0], from, to);
      FilterMeans(rows[1..], from, to);
      assert AsItems(rows)[1..] == AsItems(rows[1..]);
    }
  }

  lemma {:induction false} InsertMeans<P>(r: Row<P>, sorted: seq<Row<P>>)
    requires AllWritten(sorted) && r.Written()
    ensures AsItems(TextInsert(r, sorted)) == Insert(AsItem(r), AsItems(sorted))
    ensures AllWritten(TextInsert(r, sorted))
  {
    if sorted != [] {
      OrderMeans(r, sorted[0]);
      InsertMeans(r, sorted[1..]);
      assert AsItems(sorted)[1..] == AsItems(sorted[1..]);
    }
  }

  lemma {:induction false} TextOrderMeans<P>(rows: seq<Row<P>>)
    requires AllWritten(rows)
    ensures AsItems(TextOrder(rows)) == Order(AsItems(rows))
    ensures AllWritten(TextOrder(rows))
  {
    if rows != [] {
      TextOrderMeans(rows[1..]);
      InsertMeans(rows[0], TextOrder(rows[1..]));
      assert AsItems(rows)[1..] == AsItems(rows[1..]);
    }
  }

  lemma FirstRowsMeans<P>(rows: seq<Row<P>>)
    ensures AsItems(FirstRows(rows)) == FirstRows(AsItems(rows))
  {
  }

  lemma FirstRowsCount<T>(s: seq<T>)
    ensures var n := |FirstRows(s)|; n == (if |s| <= 50_000 then |s| else 50_000) && FirstRows(s) == s[..n]
  {
  }

  /** A range query over text returns exactly the chronological range, oldest first, each row once: the
      whole range if it fits the row limit, its oldest rows otherwise. */
  lemma QueryIsChronologicalRange<P(!new)>(rows: seq<Row<P>>, from: Civil, to: Civil)
    requires AllWritten(rows) && IdsIncrease(rows) && from.Valid() && to.Valid()
    ensures var hits := Order(Window(AsItems(rows), Instant(from), Instant(to)));
            && |Query(rows, from, to)| == (if |hits| <= 50_000 then |hits| else 50_000)
            && AsItems(Query(rows, from, to)) == hits[..|Query(rows, from, to)|]
            && (forall i, j :: 0 <= i < j < |hits| ==>
                  hits[i].at < hits[j].at || (hits[i].at == hits[j].at && hits[i].id < hits[j].id))
            && forall x :: x in hits <==> x in AsItems(rows) && Instant(from) <= x.at <= Instant(to)
  {
    hide TextFilter, TextOrder, FirstRows, Order, Window, Format, Instant, AllWritten, Row.Written;
    FilterMeans(rows, from, to);
    var kept := TextFilter(rows, Format(from), Format(to));
    TextOrderMeans(kept);
    FirstRowsMeans(TextOrder(kept));
    FirstRowsCount(AsItems(TextOrder(kept)));
    WindowInOrder(AsItems(rows), Instant(from), Instant(to));
  }

  predicate PruneSafe<P>(r: Row<P>, before: string, from: string, to: string) {
    Less(r.ts, before) ==> !TextInRange(r, from, to)
  }

  lemma PrunedRowsOutOfRange<P>(r: Row<P>, before: Civil, from: Civil, to: string)
    requires r.Written() && before.Valid() && from.Valid() && Instant(before) <= Instant(from)
    ensures PruneSafe(r, Format(before), Format(from), to)
  {
    TextOrderIsTimeOrder(r.at, before);
    TextOrderIsTimeOrder(r.at, from);
  }

  lemma FilterCons<P>(r: Row<P>, rows: seq<Row<P>>, from: string, to: string)
    ensures TextFilter([r] + rows, from, to) == (if TextInRange(r, from, to) then [r] else []) + TextFilter(rows, from, to)
  {
    assert ([r] + rows)[1..] == rows;
  }

  lemma {:induction false} PruningInvisible<P>(rows: seq<Row<P>>, before: string, from: string, to: string)
    requires forall i :: 0 <= i < |rows| ==> PruneSafe(rows[i], before, from, to)
    ensures TextFilter(Pruned(rows, before), from, to) == TextFilter(rows, from, to)
  {
    if rows != [] {
      PruningInvisible(rows[1..], before, from, to);
      assert PruneSafe(rows[0], before, from, to);
      assert TextFilter(rows, from, to)
             == (if TextInRange(rows[0], from, to) then [rows[0]] else []) + TextFilter(rows[1..], from, to);
      if Less(rows[0].ts, before) { assert Pruned(rows, before) == Pruned(rows[1..], before); }
      FilterCons(rows[0], Pruned(rows[1..], before), from, to);
    }
  }

  /** Pruning never changes a query whose range starts at or after the cutoff, row limit included. */
  lemma PruneKeepsQueries<P>(rows: seq<Row<P>>, before: Civil, from: Civil, to: Civil)
    requires AllWritten(rows) && before.Valid() && from.Valid() && Instant(before) <= Instant(from)
    ensures Query(Pruned(rows, Format(before)), from, to) == Query(rows, from, to)
  {
    forall i | 0 <= i < |rows| ensures PruneSafe(rows[i], Format(before), Format(from), Format(to)) {
      PrunedRowsOutOfRange(rows[i], before, from, Format(to));
    }
    PruningInvisible(rows, Format(before), Format(from), Format(to));
  }

  lemma {:induction false} PrunedKeeps<P>(rows: seq<Row<P>>, before: string, r: Row<P>)
    ensures r in Pruned(rows, before) <==> r in rows && !Less(r.ts, before)
  {
    if rows != [] {
      PrunedKeeps(rows[1..], before, r);
      assert rows == [rows[0]] + rows[1..];
    }
  }

  /** What pruning keeps, in terms of time: exactly the rows stamped at or after the cutoff. */
  lemma PrunedByTime<P>(rows: seq<Row<P>>, before: Civil, r: Row<P>)
    requires AllWritten(rows) && before.Valid()
    ensures r in Pruned(rows, Format(before)) <==> r in rows && Instant(before) <= Instant(r.at)
  {
    PrunedKeeps(rows, Format(before), r);
    if r in rows { TextOrderIsTimeOrder(r.at, before); }
  }

  lemma {:induction false} PrunedIds<P>(rows: seq<Row<P>>, before: string)
    requires IdsIncrease(rows)
    ensures IdsIncrease(Pruned(rows, before)) && |Pruned(rows, before)| <= |rows|
  {
    if rows != [] {
      PrunedIds(rows[1..], before);
      var rest := Pruned(rows[1..], before);
      forall k | 0 <= k < |rest| ensures rows[0].id < rest[k].id {
        PrunedKeeps(rows[1..], before, rest[k]);
      }
    }
  }

  lemma {:induction false} SelectedRows<P>(rows: seq<Row<P>>, from: string, to: string, r: Row<P>)
    ensures r in TextFilter(rows, from, to) ==> r in rows
  {
    if rows != [] { SelectedRows(rows[1..], from, to, r); }
  }

  lemma {:induction false} OrderedRows<P>(rows: seq<Row<P>>, r: Row<P>)
    ensures r in TextOrder(rows) ==> r in rows
  {
    if rows != [] {
      OrderedRows(rows[1..], r);
      InsertedRows(rows[0], TextOrder(rows[1..]), r);
    }
  }

  lemma {:induction false} InsertedRows<P>(x: Row<P>, sorted: seq<Row<P>>, r: Row<P>)
    ensures r in TextInsert(x, sorted) ==> r == x || r in sorted
  {
    if sorted != [] { InsertedRows(x, sorted[1..], r); }
  }

  lemma QueriedRows<P>(rows: seq<Row<P>>, from: Civil, to: Civil, r: Row<P>)
    ensures r in Query(rows, from, to) ==> r in rows
  {
    OrderedRows(TextFilter(rows, Format(from), Format(to)), r);
    SelectedRows(rows, Format(from), Format(to), r);
  }

  /** The live table. */
  class SampleTable<P(!new)> {
    var rows: seq<Row<P>>
    var nextId: nat

    ghost predicate Valid() reads this {
      && (forall r :: r in rows ==> r.Written())
      && IdsIncrease(rows) && forall r :: r in rows ==> r.id < nextId
    }

    constructor ()
      ensures Valid() && rows == []
    {
      rows := [];
      nextId := 1;
    }

    method InsertSample(at: Civil, data: P, ok: bool)
      requires Valid() && at.Valid()
      modifies this
      ensures Valid()
      ensures rows == if ok then old(rows) + [Row(old(nextId), Format(at), at, data)] else old(rows)
    {
      if ok {
        rows := rows + [Row(nextId, Format(at), at, data)];
        nextId := nextId + 1;
      }
    }

    /** Reads a row's timestamp back from its text. */
    static method ReadTime(r: Row<P>) returns (at: Civil)
      requires r.Written()
      ensures at == r.at
    {
      ParseInvertsFormat(r.at, 9);
      at := Parse(r.ts).value;
    }

    method Samples(from: Civil, to: Civil) returns (out: seq<(Civil, P)>)
      requires Valid()
      ensures var q := Query(rows, from, to);
              |out| == |q| && forall i :: 0 <= i < |q| ==> out[i] == (q[i].at, q[i].data)
    {
      var q := Query(rows, from, to);
      out := [];
      for i := 0 to |q|
        invariant |out| == i && forall k :: 0 <= k < i ==> out[k] == (q[k].at, q[k].data)
      {
        QueriedRows(rows, from, to, q[i]);
        var at := ReadTime(q[i]);
        out := out + [(at, q[i].data)];
      }
    }

    method PruneSamples(before: Civil) returns (removed: nat)
      requires Valid()
      modifies this
      ensures Valid()
      ensures before.Valid() ==> forall r :: r in rows <==> r in old(rows) && Instant(before) <= Instant(r.at)
      ensures rows == Pruned(old(rows), Format(before)) && removed == |old(rows)| - |rows|
    {
      var kept := Pruned(rows, Format(before));
      PrunedIds(rows, Format(before));
      forall r | r in kept ensures r in rows { PrunedKeeps(rows, Format(before), r); }
      if before.Valid() {
        forall r ensures r in kept <==> r in rows && Instant(before) <= Instant(r.at) { PrunedByTime(rows, before, r); }
      }
      removed := |rows| - |kept|;
      rows := kept;
    }
  }
}
