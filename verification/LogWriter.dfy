/**
 The asynchronous session-log writer: a bounded queue fed by any number of
 request threads, and one thread that drains it in batches.

 The other threads, and time, are a schedule of events fixed in advance and
 otherwise arbitrary.  The writer lets them run whenever it waits on the
 queue, up to the next `Run` event, so every schedule is one interleaving.
 */
module LogWriter {

  datatype Value = Null | Text(s: string) | Number(n: int)

  const COLUMNS: nat := 17

  /** One parameter per column of the INSERT. */
  type Row = r: seq<Value> | |r| == 17 witness [Null, Null, Null, Null, Null, Null, Null, Null, Null, Null, Null,
      Null, Null, Null, Null, Null, Null]

  datatype Item = Entry(row: Row) | Sentinel

  datatype Event =
    | LogLeg(row: Row)   // some request thread logs a leg
    | Close              // shutdown: the sentinel is offered
    | Detach             // shutdown, after the join: the queue global becomes None
    | Deadline           // the batch's waiting time is over
    | Run                // the writer thread gets to run

  datatype Outcome =
    | Stopped    // the loop ended after a sentinel
    | Waiting    // still blocked on an empty queue
    | Crashed    // the queue global was gone when the loop next asked for it

  datatype Got = Got(item: Item) | Empty | Gone

  function RowOf(item: Item): seq<Row> { if item.Entry? then [item.row] else [] }

  function Rows(items: seq<Item>): seq<Row> { if items == [] then [] else RowOf(items[0]) + Rows(items[1..]) }

  function Concat(batches: seq<seq<Row>>): seq<Row> {
    if batches == [] then [] else Concat(batches[..|batches| - 1]) + batches[|batches| - 1]
  }

  /** The batches the database accepted: a failed flush loses its whole batch. */
  function Landed(batches: seq<seq<Row>>, fails: nat -> bool): seq<Row> {
    if batches == [] then []
    else
      var n := |batches| - 1;
      Landed(batches[..n], fails) + if fails(n) then [] else batches[n]
  }

  /** Without failures everything handed over lands; with nothing but failures,
      nothing does. */
  lemma {:induction false} LandedUnlessFailed(batches: seq<seq<Row>>, fails: nat -> bool)
    ensures (forall n :: !fails(n)) ==> Landed(batches, fails) == Concat(batches)
    ensures (forall n :: fails(n)) ==> Landed(batches, fails) == []
  {
    if batches != [] { LandedUnlessFailed(batches[..|batches| - 1], fails); }
  }

  lemma {:induction false} RowsSplit(a: seq<Item>, b: seq<Item>)
    ensures Rows(a + b) == Rows(a) + Rows(b)
  {
    if a == [] {
      assert a + b == b && [] + Rows(b) == Rows(b);
    } else {
      assert (a + b)[1..] == a[1..] + b;
      RowsSplit(a[1..], b);
      assert RowOf(a[0]) + (Rows(a[1..]) + Rows(b)) == (RowOf(a[0]) + Rows(a[1..])) + Rows(b);
    }
  }

  lemma RowsAppend(items: seq<Item>, item: Item)
    ensures Rows(items + [item]) == Rows(items) + RowOf(item)
  {
    RowsSplit(items, [item]);
    assert [item][1..] == [] && Rows([item]) == RowOf(item) + Rows([]) && RowOf(item) + [] == RowOf(item);
  }

  /** A batch starts with the row of the item that opened its round, if any. */
  lemma FirstOfBatch(before: seq<Item>, item: Item, batch: seq<Row>)
    requires |RowOf(item)| <= |batch| && RowOf(item) == batch[..|RowOf(item)|]
    ensures Rows(before + [item]) + batch[|RowOf(item)|..] == Rows(before) + batch
  {
    RowsAppend(before, item);
    Regroup(Rows(before), RowOf(item), batch[|RowOf(item)|..], batch);
  }

  lemma Regroup(a: seq<Row>, b: seq<Row>, c: seq<Row>, bc: seq<Row>)
    requires bc == b + c
    ensures (a + b) + c == a + bc
  {
  }

  /** The rows handed over are those of a prefix of the accepted items. */
  lemma HandedIsPrefix(before: seq<Item>, taken: seq<Item>, queue: seq<Item>, handed: seq<seq<Row>>)
    requires before <= taken && Concat(handed) == Rows(before)
    ensures Concat(handed) <= Rows(taken + queue)
    ensures before == taken ==> Rows(taken + queue) == Concat(handed) + Rows(queue)
  {
    RowsSplit(taken, queue);
    assert taken == before + taken[|before|..];
    RowsSplit(before, taken[|before|..]);
  }

  // ---- what a schedule asks for --------------------------------------------------------

  /** The queue is gone after the first n events. */
  predicate Detached(es: seq<Event>, n: nat)
    requires n <= |es|
  {
    n > 0 && (es[n - 1] == Detach || Detached(es, n - 1))
  }

  /** What this event offers to the queue. */
  function Offer(e: Event): seq<Item> {
    match e
    case LogLeg(row) => [Entry(row)]
    case Close => [Sentinel]
    case _ => []
  }

  /** The items the first n events offered while there was a queue, in order. */
  function Offers(es: seq<Event>, n: nat): seq<Item>
    requires n <= |es|
  {
    if n == 0 then [] else Offers(es, n - 1) + if Detached(es, n - 1) then [] else Offer(es[n - 1])
  }

  /** The rows the first n events log. */
  function Logged(es: seq<Event>, n: nat): seq<Row>
    requires n <= |es|
  {
    if n == 0 then [] else Logged(es, n - 1) + if es[n - 1].LogLeg? then [es[n - 1].row] else []
  }

  /** Those logged when there was no queue any more. */
  function Late(es: seq<Event>, n: nat): seq<Row>
    requires n <= |es|
  {
    if n == 0 then []
    else Late(es, n - 1) + if Detached(es, n - 1) && es[n - 1].LogLeg? then [es[n - 1].row] else []
  }

  lemma {:induction false} LoggedBefore(es: seq<Event>, n: nat)
    requires n <= |es| && !Detached(es, n)
    ensures Rows(Offers(es, n)) == Logged(es, n) && Late(es, n) == []
  {
    if n > 0 {
      LoggedBefore(es, n - 1);
      var items := Offers(es, n - 1);
      if Offer(es[n - 1]) == [] { assert items + [] == items; } else { RowsAppend(items, Offer(es[n - 1])[0]); }
    }
  }

  lemma LateGroups(before: seq<Row>, late: seq<Row>, e: Event)
    ensures var last := if e.LogLeg? then [e.row] else []; (before + late) + last == before + (late + last)
  {
  }

  /** The rows logged before the queue went are offered to it, in order, and the
      rows logged after are the late ones. */
  lemma {:induction false} LoggedIsOfferedOrLate(es: seq<Event>, d: nat, n: nat)
    requires d < n <= |es| && es[d] == Detach && !Detached(es, d)
    ensures Detached(es, n) && Rows(Offers(es, n)) == Logged(es, d) && Logged(es, n) == Logged(es, d) + Late(es, n)
  {
    if n == d + 1 {
      LoggedBefore(es, d);
      assert Offers(es, d) + [] == Offers(es, d) && Logged(es, d) + [] == Logged(es, d);
    } else {
      LoggedIsOfferedOrLate(es, d, n - 1);
      LateGroups(Logged(es, d), Late(es, n - 1), es[n - 1]);
      assert Offers(es, n - 1) + [] == Offers(es, n - 1);
    }
  }

  /** The items a full queue did not refuse. */
  function Picked(items: seq<Item>, fate: seq<bool>): seq<Item>
    requires |items| == |fate|
  {
    if items == [] then []
    else
      var n := |items| - 1;
      Picked(items[..n], fate[..n]) + if fate[n] then [items[n]] else []
  }

  lemma PickedSnoc(items: seq<Item>, fate: seq<bool>, item: Item, ok: bool)
    requires |items| == |fate|
    ensures Picked(items + [item], fate + [ok]) == Picked(items, fate) + if ok then [item] else []
  {
    assert (items + [item])[..|items|] == items && (fate + [ok])[..|items|] == fate;
  }

  /** A queue that refused no row took them all, in order. */
  lemma {:induction false} NoRowRefused(items: seq<Item>, fate: seq<bool>)
    requires |items| == |fate|
    ensures |Rows(Picked(items, fate))| <= |Rows(items)|
    ensures |Rows(Picked(items, fate))| == |Rows(items)| ==> Rows(Picked(items, fate)) == Rows(items)
  {
    if items != [] {
      var n := |items| - 1;
      NoRowRefused(items[..n], fate[..n]);
      assert items == items[..n] + [items[n]];
      RowsAppend(items[..n], items[n]);
      var front := Picked(items[..n], fate[..n]);
      if fate[n] {
        RowsAppend(front, items[n]);
      } else {
        assert front + [] == front;
      }
    }
  }

  /** What the first n events leave behind: whether there is still a queue, what
      went round it, how many rows it was offered, and what it took of them. */
  predicate Marks(es: seq<Event>, n: nat, attached: bool, direct: seq<Row>, offered: nat, fate: seq<bool>,
      accepted: seq<Item>)
    requires n <= |es|
  {
    && (attached <==> !Detached(es, n))
    && direct == Late(es, n)
    && offered == |Rows(Offers(es, n))|
    && |fate| == |Offers(es, n)| && accepted == Picked(Offers(es, n), fate)
  }

  lemma OfferMarks(es: seq<Event>, n: nat, direct: seq<Row>, offered: nat, fate: seq<bool>, accepted: seq<Item>,
      item: Item, ok: bool)
    requires n < |es| && Marks(es, n, true, direct, offered, fate, accepted) && Offer(es[n]) == [item]
    ensures Marks(es, n + 1, true, direct, offered + |RowOf(item)|, fate + [ok],
                  accepted + if ok then [item] else [])
  {
    PickedSnoc(Offers(es, n), fate, item, ok);
    RowsAppend(Offers(es, n), item);
    assert Late(es, n) + [] == Late(es, n);
  }

  lemma OtherMarks(es: seq<Event>, n: nat, attached: bool, direct: seq<Row>, offered: nat, fate: seq<bool>,
      accepted: seq<Item>)
    requires n < |es| && Marks(es, n, attached, direct, offered, fate, accepted) && (attached ==> Offer(es[n]) == [])
    ensures Marks(es, n + 1, attached && es[n] != Detach,
                  direct + (if !attached && es[n].LogLeg? then [es[n].row] else []), offered, fate, accepted)
  {
    assert Offers(es, n) + [] == Offers(es, n) && Late(es, n) + [] == Late(es, n);
  }

  // ---- the multi-row INSERT ---------------------------------------------------------

  /** Whether the placeholder for a column carries the ::jsonb cast. */
  const TEMPLATE: seq<bool> :=
    [false, false, false, false, false, false, false, false, true, true, false, false, false, false, false, false,
        false]

  function Placeholders(n: nat): (r: seq<bool>)
    ensures |r| == COLUMNS * n
  {
    if n == 0 then [] else Placeholders(n - 1) + TEMPLATE
  }

  lemma {:induction false} PlaceholderCast(n: nat, i: nat, j: nat)
    requires i < n && j < COLUMNS
    ensures COLUMNS * i + j < |Placeholders(n)|
    ensures Placeholders(n)[COLUMNS * i + j] <==> j == 8 || j == 9
  {
    if i < n - 1 { PlaceholderCast(n - 1, i, j); }
  }

  /** Column j of row i is parameter 17 * i + j, for the first k rows. */
  predicate Flat(params: seq<Value>, batch: seq<Row>, k: nat)
    requires k <= |batch|
  {
    && |params| == COLUMNS * k
    && forall i, j :: 0 <= i < k && 0 <= j < COLUMNS ==>
          COLUMNS * i + j < |params| && params[COLUMNS * i + j] == batch[i][j]
  }

  lemma InsideRow(i: nat, j: nat, k: nat)
    requires j < COLUMNS
    ensures i < k <==> COLUMNS * i + j < COLUMNS * k
  {
  }

  lemma OneMoreRow(params: seq<Value>, batch: seq<Row>, k: nat)
    requires k < |batch| && Flat(params, batch, k)
    ensures Flat(params + batch[k], batch, k + 1)
  {
    var more := params + batch[k];
    forall i, j | 0 <= i < k + 1 && 0 <= j < COLUMNS
      ensures COLUMNS * i + j < |more| && more[COLUMNS * i + j] == batch[i][j]
    {
      InsideRow(i, j, k);
      if i < k { assert params[COLUMNS * i + j] == batch[i][j]; }
    }
  }

  /** flat_params, as long as the placeholders. */
  method FlatParams(batch: seq<Row>) returns (params: seq<Value>)
    ensures Flat(params, batch, |batch|) && |params| == |Placeholders(|batch|)|
  {
    params := [];
    for k := 0 to |batch|
      invariant Flat(params, batch, k)
    {
      OneMoreRow(params, batch, k);
      params := params + batch[k];
    }
  }

  // ---- queue, writer and database -------------------------------------------------------

  class Writer {
    const capacity: nat
    const batchMax: nat
    const fails: nat -> bool          // whether the n-th flush raises
    var queue: seq<Item>
    var attached: bool                // the queue global is not None
    var events: seq<Event>
    var dropped: nat
    var direct: seq<Row>              // rows sent to the synchronous fallback
    var flushes: nat
    var table: seq<Row>               // what the writer's INSERTs left in the database
    ghost const schedule: seq<Event>  // every event there is
    ghost var fate: seq<bool>         // of each item offered: did the queue take it
    ghost var offered: nat
    ghost var accepted: seq<Item>
    ghost var taken: seq<Item>
    ghost var handed: seq<seq<Row>>   // every batch given to _flush_batch
    ghost var roundStart: nat         // |taken| when the current round began

    /** How many events are over. */
    ghost function Step(): int reads this`events { |schedule| - |events| }

    /** Every one of them left its mark. */
    ghost predicate Tracked()
      reads this`events, this`attached, this`direct, this`offered, this`fate, this`accepted
    {
      && |events| <= |schedule| && events == schedule[|schedule| - |events|..]
      && forall n: nat :: n + |events| == |schedule| ==>
           Marks(schedule, n, attached, direct, offered, fate, accepted)
    }

    ghost predicate Valid() reads this { Sound() && Tracked() }

    ghost predicate Sound() reads this {
      && capacity > 0 && batchMax > 0
      && |queue| <= capacity
      && accepted == taken + queue
      && offered == |Rows(accepted)| + dropped
      && (forall i :: 0 <= i < |handed| ==> 1 <= |handed[i]| <= batchMax)
      && flushes == |handed| && table == Landed(handed, fails)
      && roundStart <= |taken|
    }

    constructor (capacity: nat, batchMax: nat, fails: nat -> bool, events: seq<Event>)
      requires capacity > 0 && batchMax > 0
      ensures Valid() && taken == [] && handed == [] && queue == [] && offered == 0
      ensures schedule == events
    {
      schedule, fate := events, [];
      this.capacity, this.batchMax, this.fails, this.events := capacity, batchMax, fails, events;
      queue, attached, dropped, direct, flushes, table := [], true, 0, [], 0, [];
      offered, accepted, taken, handed, roundStart := 0, [], [], [], 0;
    }

    /** put_nowait: refused when the queue is full. */
    method Put(item: Item) returns (ok: bool)
      requires Sound()
      modifies this`queue, this`accepted, this`offered, this`dropped
      ensures ok == (|old(queue)| < capacity)
      ensures queue == old(queue) + (if ok then [item] else [])
      ensures accepted == old(accepted) + (if ok then [item] else [])
      ensures dropped == old(dropped) + (if !ok && item.Entry? then 1 else 0)
      ensures offered == old(offered) + |RowOf(item)|
      ensures Sound()
    {
      ok := |queue| < capacity;
      offered := offered + if item.Entry? then 1 else 0;
      if ok {
        RowsAppend(accepted, item);
        queue, accepted := queue + [item], accepted + [item];
      } else if item.Entry? {
        dropped := dropped + 1;
      }
    }

    /** Offer the item of the next event while there is a queue. */
    method Enqueue(item: Item)
      requires Valid() && attached && events != [] && Offer(events[0]) == [item]
      modifies this`queue, this`accepted, this`offered, this`dropped, this`events, this`fate
      ensures Valid() && events == old(events)[1..]
      ensures accepted == old(accepted) + (if |old(queue)| < capacity then [item] else [])
      ensures |queue| <= |old(queue)| + 1
    {
      var ok := Put(item);
      OfferMarks(schedule, Step(), direct, old(offered), fate, old(accepted), item, ok);
      fate, events := fate + [ok], events[1..];
    }

    /** The next event of another thread. */
    method Happen() returns (e: Event)
      requires Valid() && events != []
      modifies this`queue, this`accepted, this`offered, this`dropped, this`attached, this`direct, this`events,
          this`fate
      ensures Valid() && e == old(events)[0] && events == old(events)[1..]
      ensures |queue| <= |old(queue)| + (if e.LogLeg? || e.Close? then 1 else 0)
      ensures old(accepted) <= accepted && (attached ==> old(attached))
    {
      e := events[0];
      if attached && e.LogLeg? {
        Enqueue(Entry(e.row));
      } else if attached && e.Close? {
        Enqueue(Sentinel);
      } else {
        GoRound();
      }
    }

    /** The next event, when it offers nothing to a queue. */
    method GoRound()
      requires Valid() && events != [] && (attached ==> Offer(events[0]) == [])
      modifies this`attached, this`direct, this`events
      ensures Valid() && events == old(events)[1..] && (attached ==> old(attached))
    {
      var e := events[0];
      OtherMarks(schedule, Step(), attached, direct, offered, fate, accepted);
      direct := direct + if !attached && e.LogLeg? then [e.row] else [];
      attached := attached && e != Detach;
      events := events[1..];
    }

    /** What is left to do, for termination. */
    ghost function Work(): nat reads this { 2 * |events| + |queue| }

    /** Wait for an item: other threads go on until this one runs again and finds
        one, or its deadline passes, or nothing more ever happens. */
    method Await(timed: bool) returns (late: bool)
      requires Valid()
      modifies this`queue, this`accepted, this`offered, this`dropped, this`attached, this`direct, this`events,
          this`fate
      ensures Valid() && old(accepted) <= accepted && Work() <= old(Work()) && (attached ==> old(attached))
      ensures late ==> timed
      ensures !late && queue == [] ==> events == []
    {
      late := false;
      while events != []
        invariant Valid() && old(accepted) <= accepted && Work() <= old(Work())
        invariant attached ==> old(attached)
        decreases |events|
      {
        var e := Happen();
        if timed && e.Deadline? { return true; }
        if e.Run? && queue != [] { return; }
      }
    }

    method Take() returns (item: Item)
      requires Valid() && queue != []
      modifies this`queue, this`taken
      ensures Valid() && taken == old(taken) + [item] && |queue| == |old(queue)| - 1
    {
      item := queue[0];
      taken := taken + [item];
      queue := queue[1..];
    }

    /** queue.get(), or queue.get(timeout) when `timed`. */
    method Get(timed: bool) returns (g: Got)
      requires Valid()
      modifies this`queue, this`accepted, this`offered, this`dropped, this`attached, this`direct, this`events,
          this`fate, this`taken
      ensures Valid() && old(accepted) <= accepted && Work() <= old(Work())
      ensures g.Got? ==> taken == old(taken) + [g.item] && Work() < old(Work())
      ensures !g.Got? ==> taken == old(taken)
      ensures (g.Gone? <==> !old(attached)) && (attached ==> old(attached))
      ensures g.Empty? && !timed ==> queue == [] && events == []
    {
      if !attached { return Gone; }
      var late := Await(timed);
      if late || queue == [] { return Empty; }
      var item := Take();
      g := Got(item);
    }

    /** _flush_batch inside the loop's try: an error is swallowed, the batch lost. */
    method Flush(batch: seq<Row>)
      requires Valid() && 1 <= |batch| <= batchMax
      modifies this`table, this`handed, this`flushes
      ensures Valid() && handed == old(handed) + [batch] && Concat(handed) == Concat(old(handed)) + batch
      ensures table == old(table) + if fails(old(flushes)) then [] else batch
    {
      var params := FlatParams(batch);
      assert (handed + [batch])[..|handed|] == handed;
      if !fails(flushes) { table := table + batch; }
      handed, flushes := handed + [batch], flushes + 1;
    }

    /** The inner loop: take more rows until the batch is full, the deadline
        passes, or a sentinel turns up. */
    method Fill(first: seq<Row>) returns (batch: seq<Row>, stopping: bool, gone: bool)
      requires Valid() && |first| <= 1
      modifies this`queue, this`accepted, this`offered, this`dropped, this`attached, this`direct, this`events,
          this`fate, this`taken
      ensures Valid() && old(accepted) <= accepted && Work() <= old(Work())
      ensures |first| <= |batch| <= batchMax && first == batch[..|first|]
      ensures old(taken) <= taken && |taken| - |old(taken)| <= batchMax + 1
      ensures Rows(taken) == Rows(old(taken)) + batch[|first|..]
      ensures stopping ==> |taken| > |old(taken)| && taken[|taken| - 1] == Sentinel && !gone
      ensures Entries(taken, |old(taken)|, if stopping then |taken| - 1 else |taken|)
      ensures (gone ==> !attached) && (attached ==> old(attached))
    {
      batch, stopping, gone := first, false, false;
      ghost var start := taken;
      while |batch| < batchMax
        invariant Valid() && old(accepted) <= accepted && Work() <= old(Work())
        invariant |first| <= |batch| <= batchMax && first == batch[..|first|] && (attached ==> old(attached))
        invariant start <= taken && |taken| - |start| == |batch| - |first|
        invariant Rows(taken) == Rows(start) + batch[|first|..] && Entries(taken, |start|, |taken|)
        decreases batchMax - |batch|
      {
        ghost var was := taken;
        var g := Get(true);
        if g.Empty? { break; }
        if g.Gone? { gone := true; break; }
        RowsAppend(was, g.item);
        if g.item == Sentinel { stopping := true; break; }
        batch := batch + [g.item.row];
      }
    }

    /** The rest of a round whose first item has just been taken. */
    method FillFrom(item: Item) returns (batch: seq<Row>, stopping: bool, gone: bool)
      requires Valid() && taken != [] && taken[|taken| - 1] == item && roundStart == |taken| - 1
          && Entries(taken, 0, roundStart)
      modifies this`queue, this`accepted, this`offered, this`dropped, this`attached, this`direct, this`events,
          this`fate, this`taken
      ensures Valid() && old(taken) <= taken && (attached ==> old(attached)) && Work() <= old(Work())
      ensures |batch| <= batchMax && (gone ==> !attached)
      ensures |RowOf(item)| <= |batch| && RowOf(item) == batch[..|RowOf(item)|]
      ensures Rows(taken) == Rows(old(taken)) + batch[|RowOf(item)|..]
      ensures !gone && !stopping ==> Entries(taken, 0, |taken|)
      ensures !gone && stopping ==> Ended(taken, roundStart, batchMax)
    {
      var sentinel;
      ghost var start := taken;
      batch, sentinel, gone := Fill(RowOf(item));
      stopping := item == Sentinel || sentinel;
      RoundEnds(start, taken, batchMax, sentinel);
    }

    /** Collect the next batch: block for its first item, then fill it.
        Stuck means waiting on an empty queue, or the queue global is gone. */
    method Collect() returns (batch: seq<Row>, stopping: bool, stuck: bool)
      requires Valid() && Entries(taken, 0, |taken|)
      modifies this`queue, this`accepted, this`offered, this`dropped, this`attached, this`direct, this`events,
          this`fate, this`taken, this`roundStart
      ensures Valid() && old(taken) <= taken && (attached ==> old(attached))
      ensures Work() <= old(Work()) && (!stuck ==> Work() < old(Work()))
      ensures !stuck ==> Rows(taken) == Rows(old(taken)) + batch && |batch| <= batchMax
      ensures !stuck && !stopping ==> Entries(taken, 0, |taken|)
      ensures !stuck && stopping ==> Ended(taken, roundStart, batchMax)
      ensures stuck && attached ==> queue == [] && taken == old(taken) && events == []
    {
      roundStart := |taken|;
      ghost var before := taken;
      var first := Get(false);
      if !first.Got? { return [], false, true; }
      batch, stopping, stuck := FillFrom(first.item);
      FirstOfBatch(before, first.item, batch);
    }

    /** One round: collect a batch and hand it over, unless it is empty. */
    method Round() returns (stopping: bool, stuck: bool)
      requires Valid() && Rows(taken) == Concat(handed) && Entries(taken, 0, |taken|)
      modifies this
      ensures Valid() && (!stuck ==> Rows(taken) == Concat(handed) && Work() < old(Work()))
      ensures !stuck && !stopping ==> Entries(taken, 0, |taken|)
      ensures !stuck && stopping ==> Ended(taken, roundStart, batchMax)
      ensures stuck ==> old(taken) <= taken && Concat(handed) == Rows(old(taken))
      ensures stuck && attached ==> queue == [] && taken == old(taken) && events == []
    {
      var batch;
      batch, stopping, stuck := Collect();
      if !stuck && |batch| > 0 {
        Flush(batch);
      } else if !stuck {
        assert Rows(old(taken)) + batch == Rows(old(taken));
      }
    }

    /** Of the rows logged so far: those logged without a queue went round it; the
        others were offered, in order, and were accepted or counted as dropped. */
    ghost predicate Settled() reads this {
      && 0 <= Step() <= |schedule|
      && direct == Late(schedule, Step()) && (attached <==> !Detached(schedule, Step()))
      && |Rows(Offers(schedule, Step()))| == |Rows(accepted)| + dropped
      && (dropped == 0 ==> Rows(accepted) == Rows(Offers(schedule, Step())))
    }

    lemma AllOffered()
      requires Valid()
      ensures Settled()
      ensures attached ==> Rows(Offers(schedule, Step())) == Logged(schedule, Step())
    {
      var n := Step();
      assert Marks(schedule, n, attached, direct, offered, fate, accepted);
      NoRowRefused(Offers(schedule, n), fate);
      if attached { LoggedBefore(schedule, n); }
    }

    /** Why the loop may end here, with everything up to `before` handed over. */
    lemma LoopEnds(before: seq<Item>)
      requires Valid() && before <= taken && Concat(handed) == Rows(before)
      ensures Settled() && Concat(handed) <= Rows(accepted)
      ensures before == taken ==> Rows(accepted) == Concat(handed) + Rows(queue)
      ensures attached && before == taken && queue == [] && events == [] && dropped == 0 ==>
          Concat(handed) == Logged(schedule, |schedule|)
    {
      AllOffered();
      HandedIsPrefix(before, taken, queue, handed);
      if queue == [] { assert Concat(handed) + [] == Concat(handed); }
    }

    /** Drain the queue in batches until told to stop. */
    method WriterLoop() returns (o: Outcome)
      requires Valid() && taken == [] && handed == []
      modifies this
      ensures Valid()
      // First in, first out, nothing twice: what was handed over is a prefix
      // of the accepted rows, and the rest is still queued (or died with a crash).
      ensures Concat(handed) <= Rows(accepted)
      ensures !o.Crashed? ==> Rows(accepted) == Concat(handed) + Rows(queue)
      ensures o.Waiting? ==> queue == [] && Entries(taken, 0, |taken|) && events == []
      ensures o.Stopped? ==> Ended(taken, roundStart, batchMax)
      // Every row logged so far was offered while there was a queue or went round
      // it, in order; every row offered was accepted or counted as dropped.
      ensures Settled()
      ensures o.Waiting? && dropped == 0 ==> Concat(handed) == Logged(schedule, |schedule|)
    {
      var stopping := false;
      while !stopping
        invariant Valid() && Rows(taken) == Concat(handed)
        invariant !stopping ==> Entries(taken, 0, |taken|)
        invariant stopping ==> Ended(taken, roundStart, batchMax)
        decreases !stopping, Work()
      {
        ghost var before := taken;
        var stuck;
        stopping, stuck := Round();
        if stuck {
          LoopEnds(before);
          return if attached then Waiting else Crashed;
        }
      }
      LoopEnds(taken);
      o := Stopped;
    }
  }

  /** Positions lo..hi hold rows, not sentinels. */
  predicate Entries(items: seq<Item>, lo: int, hi: int) {
    forall i :: lo <= i < hi && 0 <= i < |items| ==> items[i].Entry?
  }

  /** How a stopped loop relates to the first sentinel, at position i: every row
      accepted before it was taken.  If the sentinel was found while filling a
      batch, nothing after it was; if it opened the round, the inner loop still
      ran and took at most one batch of the rows accepted after it. */
  predicate LoopEnd(taken: seq<Item>, roundStart: nat, batchMax: nat, i: int) {
    && 0 <= i < |taken| && taken[i] == Sentinel && Entries(taken, 0, i)
    && (i == |taken| - 1 || (i == roundStart && |taken| - i <= batchMax + 2))
  }

  predicate Ended(taken: seq<Item>, roundStart: nat, batchMax: nat) {
    LoopEnd(taken, roundStart, batchMax, roundStart) || LoopEnd(taken, roundStart, batchMax, |taken| - 1)
  }

  /** A round that opened with `start`'s last item and then took the rest. */
  lemma RoundEnds(start: seq<Item>, taken: seq<Item>, batchMax: nat, sentinel: bool)
    requires start != [] && start <= taken && |taken| - |start| <= batchMax + 1 && Entries(start, 0, |start| - 1)
    requires sentinel ==> |taken| > |start| && taken[|taken| - 1] == Sentinel
    requires Entries(taken, |start|, if sentinel then |taken| - 1 else |taken|)
    ensures if sentinel || start[|start| - 1] == Sentinel then Ended(taken, |start| - 1, batchMax)
        else Entries(taken, 0, |taken|)
  {
    assert forall i :: 0 <= i < |start| ==> taken[i] == start[i];
  }
}
