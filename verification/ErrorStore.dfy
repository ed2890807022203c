/** The bounded table of stored errors: rotation by size or by date in db/db.go, and
    storeError in app.go. */
module ErrorStore {
  import opened Text

  datatype Row = Row(id: nat, message: string, time: int)

  /** The order in which rows are given up: by time, then by primary key. */
  predicate Before(a: Row, b: Row) {
    a.time < b.time || (a.time == b.time && a.id < b.id)
  }

  const MIN_LIMIT := 4096

  /** Two's complement wrap-around of a 64-bit int. */
  function Wrap64(x: int): (w: int)
    ensures -0x8000_0000_0000_0000 <= w < 0x8000_0000_0000_0000
  {
    (x + 0x8000_0000_0000_0000) % 0x1_0000_0000_0000_0000 - 0x8000_0000_0000_0000
  }

  /** sizeStrToInt: kilobytes to bytes, never below a page. None stands for a text that
      is no number. */
  method SizeStrToInt(errRotSizeStr: string) returns (r: Option<int>)
    ensures r.Some? <==> Atoi(errRotSizeStr).Some?
    ensures r.Some? ==> 4096 <= r.value < 0x8000_0000_0000_0000
    ensures r.Some? ==> r.value == 4096 || r.value == Wrap64(Atoi(errRotSizeStr).value * 1024)
    ensures r.Some? && 4 <= Atoi(errRotSizeStr).value < 0x20_0000_0000_0000 ==> r.value == Atoi(errRotSizeStr).value * 1024
    ensures r.Some? && -0x20_0000_0000_0000 <= Atoi(errRotSizeStr).value < 4 ==> r.value == 4096
    ensures r.Some? && Wrap64(Atoi(errRotSizeStr).value * 1024) >= 4096 ==> r.value == Wrap64(Atoi(errRotSizeStr).value * 1024)
  {
    var parsed := Atoi(errRotSizeStr);
    if parsed.None? { return None; }
    var n := Wrap64(parsed.value * 1024);
    if n < MIN_LIMIT {
      n := MIN_LIMIT;
    }
    r := Some(n);
  }

  /** Index of the oldest row. */
  function Oldest(rows: seq<Row>): (i: nat)
    requires rows != []
    ensures i < |rows|
    ensures forall j :: 0 <= j < |rows| ==> !Before(rows[j], rows[i])
  {
    if |rows| == 1 then 0
    else
      var j := Oldest(rows[1..]) + 1;
      assert forall k :: 1 <= k < |rows| ==> rows[k] == rows[1..][k - 1];
      if Before(rows[j], rows[0]) then j else 0
  }

  function RemoveAt(rows: seq<Row>, i: nat): (r: seq<Row>)
    requires i < |rows|
    ensures |r| == |rows| - 1
  {
    rows[..i] + rows[i + 1..]
  }

  /** The table without its k oldest rows. */
  function DropOldest(rows: seq<Row>, k: nat): (r: seq<Row>)
    requires k <= |rows|
    ensures |r| == |rows| - k
  {
    if k == 0 then rows
    else
      var r := DropOldest(rows, k - 1);
      RemoveAt(r, Oldest(r))
  }

  lemma RemoveAtMultiset(rows: seq<Row>, i: nat)
    requires i < |rows|
    ensures multiset(RemoveAt(rows, i)) == multiset(rows) - multiset{rows[i]}
  {
    assert rows == rows[..i] + [rows[i]] + rows[i + 1..];
  }

  /** Some copy of `d` is in `rows` and no longer in `kept`. */
  ghost predicate Gone(rows: seq<Row>, kept: seq<Row>, d: Row) {
    multiset(rows)[d] > multiset(kept)[d]
  }

  /** No row is given up before an older one. */
  ghost predicate OldestGone(rows: seq<Row>, kept: seq<Row>) {
    forall d, r :: Gone(rows, kept, d) && r in kept ==> !Before(r, d)
  }

  lemma OneMoreGone(rows: seq<Row>, kept: seq<Row>)
    requires OldestGone(rows, kept) && kept != []
    ensures OldestGone(rows, RemoveAt(kept, Oldest(kept)))
  {
    var i := Oldest(kept);
    var kept' := RemoveAt(kept, i);
    RemoveAtMultiset(kept, i);
    forall d, r | Gone(rows, kept', d) && r in kept' ensures !Before(r, d) {
      assert r in kept;
      if d != kept[i] { assert Gone(rows, kept, d); }
    }
  }

  /** Whatever the order of the table, rotation by size gives up the oldest rows. */
  lemma {:induction false} DropOldestDropsOldest(rows: seq<Row>, k: nat)
    requires k <= |rows|
    ensures OldestGone(rows, DropOldest(rows, k))
  {
    if k > 0 {
      DropOldestDropsOldest(rows, k - 1);
      OneMoreGone(rows, DropOldest(rows, k - 1));
    }
  }

  function KeepFrom(rows: seq<Row>, cutoff: int): seq<Row> {
    if rows == [] then []
    else
      var front := KeepFrom(rows[..|rows| - 1], cutoff);
      if rows[|rows| - 1].time < cutoff then front else front + [rows[|rows| - 1]]
  }

  /** Nothing is made up, and k rows go. */
  lemma {:induction false} DropOldestKeeps(rows: seq<Row>, k: nat)
    requires k <= |rows|
    ensures multiset(DropOldest(rows, k)) <= multiset(rows) && |DropOldest(rows, k)| == |rows| - k
  {
    if k > 0 {
      var kept := DropOldest(rows, k - 1);
      DropOldestKeeps(rows, k - 1);
      RemoveAtMultiset(kept, Oldest(kept));
      FewerStill(multiset(rows), multiset(kept), multiset(DropOldest(rows, k)), kept[Oldest(kept)]);
    }
  }

  lemma FewerStill(all: multiset<Row>, kept: multiset<Row>, kept': multiset<Row>, gone: Row)
    requires kept <= all && kept' == kept - multiset{gone}
    ensures kept' <= all
  {
  }

  /** Rotation by date: whatever the order of the table, exactly the rows before the cutoff
      are given up, and the others as often as they were there. */
  lemma {:induction false} KeepFromExactly(rows: seq<Row>, cutoff: int)
    ensures forall r :: multiset(KeepFrom(rows, cutoff))[r] == if r.time < cutoff then 0 else multiset(rows)[r]
  {
    if rows != [] {
      KeepFromExactly(rows[..|rows| - 1], cutoff);
      assert rows == rows[..|rows| - 1] + [rows[|rows| - 1]];
    }
  }

  /** `k` is how many of the oldest rows have to go for the table to fit. */
  ghost predicate FewestToDrop(rows: seq<Row>, size: seq<Row> -> nat, limit: int, k: nat) {
    Needed(rows, size, limit, k) && Fits(rows, size, limit, k)
  }

  predicate Fits(rows: seq<Row>, size: seq<Row> -> nat, limit: int, k: nat)
    requires k <= |rows|
  {
    size(DropOldest(rows, k)) <= limit
  }

  function FirstFit(rows: seq<Row>, size: seq<Row> -> nat, limit: int, k: nat): (r: nat)
    requires k <= |rows|
    ensures k <= r <= |rows|
    ensures forall j :: k <= j < r ==> !Fits(rows, size, limit, j)
    ensures r < |rows| ==> Fits(rows, size, limit, r)
    decreases |rows| - k
  {
    if k == |rows| || Fits(rows, size, limit, k) then k else FirstFit(rows, size, limit, k + 1)
  }

  /** Dropping fewer than k rows is not enough. */
  ghost predicate Needed(rows: seq<Row>, size: seq<Row> -> nat, limit: int, k: nat) {
    k <= |rows| && forall j :: 0 <= j < k ==> !Fits(rows, size, limit, j)
  }

  lemma NeededOneMore(rows: seq<Row>, size: seq<Row> -> nat, limit: int, k: nat)
    requires Needed(rows, size, limit, k) && k < |rows| && !Fits(rows, size, limit, k)
    ensures Needed(rows, size, limit, k + 1)
    ensures DropOldest(rows, k + 1) == RemoveAt(DropOldest(rows, k), Oldest(DropOldest(rows, k)))
  {
  }

  lemma FirstFitUnique(rows: seq<Row>, size: seq<Row> -> nat, limit: int, k: nat)
    requires Needed(rows, size, limit, k)
    requires k < |rows| ==> Fits(rows, size, limit, k)
    ensures FirstFit(rows, size, limit, 0) == k
  {
  }

  /** The table after RotateErrorsBySizeOrDate. `size` is what the database reports for
      a table with these rows; `limit` is nil when rotation goes by date. */
  function Rotated(rows: seq<Row>, size: seq<Row> -> nat, limit: Option<int>, cutoff: int): seq<Row> {
    match limit
    case None => KeepFrom(rows, cutoff)
    case Some(n) => DropOldest(rows, FirstFit(rows, size, n, 0))
  }

  /** Size rotation gives up as many of the oldest rows as needed and no more, and the
      table fits afterwards. */
  lemma RotatedFits(rows: seq<Row>, size: seq<Row> -> nat, limit: int, cutoff: int) returns (k: nat)
    requires size([]) <= MIN_LIMIT <= limit
    ensures FewestToDrop(rows, size, limit, k)
    ensures Rotated(rows, size, Some(limit), cutoff) == DropOldest(rows, k)
  {
    k := FirstFit(rows, size, limit, 0);
    if k == |rows| {
      assert DropOldest(rows, k) == [];
    }
  }

  class Table {
    const size: seq<Row> -> nat
    const limit: Option<int>
    var rows: seq<Row>

    constructor (size: seq<Row> -> nat, limit: Option<int>)
      ensures this.size == size && this.limit == limit && rows == []
    {
      this.size, this.limit, rows := size, limit, [];
    }

    method RotateErrorsBySizeOrDate(cutoff: int)
      modifies this
      ensures rows == Rotated(old(rows), size, limit, cutoff)
    {
      if limit.Some? {
        RotateErrorsBySize(limit.value);
      } else {
        RotateErrorsByDate(cutoff);
      }
    }

    /** Deletes one row at a time and asks for the size again. */
    method RotateErrorsBySize(n: int)
      modifies this
      ensures rows == DropOldest(old(rows), FirstFit(old(rows), size, n, 0))
    {
      ghost var rows0, k := rows, 0;
      var storedErrorsSize := size(rows);
      while storedErrorsSize > n
        invariant Needed(rows0, size, n, k) && rows == DropOldest(rows0, k)
        invariant storedErrorsSize == size(rows)
        decreases |rows|
      {
        if rows == [] { break; }
        NeededOneMore(rows0, size, n, k);
        rows := RemoveAt(rows, Oldest(rows));
        k := k + 1;
        storedErrorsSize := size(rows);
      }
      FirstFitUnique(rows0, size, n, k);
    }

    method RotateErrorsByDate(cutoff: int)
      modifies this
      ensures rows == if limit.None? then KeepFrom(old(rows), cutoff) else old(rows)
    {
      if limit.None? {
        var kept: seq<Row> := [];
        for i := 0 to |rows|
          invariant rows == old(rows) && kept == KeepFrom(rows[..i], cutoff)
        {
          if rows[i].time >= cutoff { kept := kept + [rows[i]]; }
          assert rows[..i + 1][..i] == rows[..i];
        }
        assert rows[..|rows|] == rows;
        rows := kept;
      }
    }

    /** Rotate, then insert: the new row is not counted against the limit. */
    method StoreError(row: Row, cutoff: int)
      modifies this
      ensures rows == Step(old(rows), size, limit, StoreOp(row, cutoff))
    {
      RotateErrorsBySizeOrDate(cutoff);
      rows := rows + [row];
    }
  }

  datatype Op = StoreOp(row: Row, cutoff: int) | ReadOp(cutoff: int)

  function Step(rows: seq<Row>, size: seq<Row> -> nat, limit: Option<int>, op: Op): seq<Row> {
    match op
    case StoreOp(row, cutoff) => Rotated(rows, size, limit, cutoff) + [row]
    case ReadOp(cutoff) => if limit.None? then KeepFrom(rows, cutoff) else rows
  }

  function Run(size: seq<Row> -> nat, limit: Option<int>, ops: seq<Op>): seq<Row> {
    if ops == [] then [] else Step(Run(size, limit, ops[..|ops| - 1]), size, limit, ops[|ops| - 1])
  }

  /** Every error ever stored, in the order of storing. */
  function History(ops: seq<Op>): seq<Row> {
    if ops == [] then []
    else
      var h := History(ops[..|ops| - 1]);
      if ops[|ops| - 1].StoreOp? then h + [ops[|ops| - 1].row] else h
  }

  ghost predicate Ordered(rows: seq<Row>) {
    forall i, j :: 0 <= i < j < |rows| ==> Before(rows[i], rows[j])
  }

  lemma SuffixOrdered(h: seq<Row>, k: nat)
    requires Ordered(h) && k <= |h|
    ensures Ordered(h[k..])
  {
  }

  lemma OldestFirst(rows: seq<Row>)
    requires Ordered(rows) && rows != []
    ensures Oldest(rows) == 0
  {
    assert forall i :: 0 < i < |rows| ==> Before(rows[0], rows[i]);
  }

  lemma {:induction false} DropOldestOrdered(rows: seq<Row>, k: nat)
    requires Ordered(rows) && k <= |rows|
    ensures DropOldest(rows, k) == rows[k..]
  {
    if k > 0 {
      DropOldestOrdered(rows, k - 1);
      SuffixOrdered(rows, k - 1);
      OldestFirst(rows[k - 1..]);
    }
  }

  lemma {:induction false} KeepFromOrdered(rows: seq<Row>, cutoff: int) returns (k: nat)
    requires Ordered(rows)
    ensures k <= |rows| && KeepFrom(rows, cutoff) == rows[k..]
    ensures forall j :: 0 <= j < |rows| ==> (rows[j].time < cutoff <==> j < k)
  {
    if rows == [] {
      k := 0;
    } else {
      var front, last := rows[..|rows| - 1], rows[|rows| - 1];
      k := KeepFromOrdered(front, cutoff);
      if last.time < cutoff {
        assert forall j :: 0 <= j < |front| ==> front[j] == rows[j] && Before(front[j], last);
        k := |rows|;
      } else {
        assert rows[k..] == front[k..] + [last];
      }
    }
  }

  /** The clock does not run backwards: errors are stored in (time, id) order. */
  ghost predicate Monotone(ops: seq<Op>) { Ordered(History(ops)) }

  lemma HistoryFront(ops: seq<Op>)
    requires ops != [] && Monotone(ops)
    ensures Monotone(ops[..|ops| - 1])
  {
    var h := History(ops[..|ops| - 1]);
    assert h <= History(ops);
  }

  /** The rows kept so far: a suffix of the history, and in size mode one that fits once
      its newest row is left out. */
  ghost predicate KeptSuffix(rows: seq<Row>, h: seq<Row>, size: seq<Row> -> nat, limit: Option<int>, k: nat) {
    && k <= |h| && rows == h[k..]
    && (h != [] && limit.Some? ==> k < |h| && size(h[k..|h| - 1]) <= limit.value)
  }

  /** What a rotation leaves of a suffix is a suffix; by size, one that fits. */
  lemma RotationKeepsSuffix(size: seq<Row> -> nat, limit: Option<int>, rows: seq<Row>, cutoff: int) returns (cut: nat)
    requires Ordered(rows) && (limit.Some? ==> size([]) <= MIN_LIMIT <= limit.value)
    ensures cut <= |rows| && Rotated(rows, size, limit, cutoff) == rows[cut..]
    ensures limit.Some? ==> size(rows[cut..]) <= limit.value
  {
    if limit.None? {
      cut := KeepFromOrdered(rows, cutoff);
    } else {
      cut := RotatedFits(rows, size, limit.value, cutoff);
      DropOldestOrdered(rows, cut);
    }
  }

  /** A suffix of a suffix, and a new row at its end. */
  lemma SuffixGrows(h: seq<Row>, k: nat, cut: nat, row: Row)
    requires k + cut <= |h|
    ensures h[k..][cut..] == h[k + cut..]
    ensures (h + [row])[k + cut..] == h[k + cut..] + [row] && (h + [row])[k + cut..|h|] == h[k + cut..]
  {
  }

  lemma StepKeepsSuffix(size: seq<Row> -> nat, limit: Option<int>, rows: seq<Row>, h: seq<Row>, op: Op, k: nat)
    returns (k': nat)
    requires Ordered(h) && KeptSuffix(rows, h, size, limit, k)
    requires limit.Some? ==> size([]) <= MIN_LIMIT <= limit.value
    ensures KeptSuffix(Step(rows, size, limit, op), if op.StoreOp? then h + [op.row] else h, size, limit, k')
  {
    SuffixOrdered(h, k);
    if op.StoreOp? {
      var cut := RotationKeepsSuffix(size, limit, rows, op.cutoff);
      SuffixGrows(h, k, cut, op.row);
      k' := k + cut;
    } else if limit.None? {
      var cut := KeepFromOrdered(rows, op.cutoff);
      SuffixGrows(h, k, cut, Row(0, "", 0));
      k' := k + cut;
    } else {
      k' := k;
    }
  }

  /** Over every run the kept rows are the youngest of all errors ever stored. When
      rotation goes by size, the table without its newest row fits the limit. */
  lemma {:induction false} RunKeepsSuffix(size: seq<Row> -> nat, limit: Option<int>, ops: seq<Op>) returns (k: nat)
    requires Monotone(ops)
    requires limit.Some? ==> size([]) <= MIN_LIMIT <= limit.value
    ensures KeptSuffix(Run(size, limit, ops), History(ops), size, limit, k)
  {
    k := 0;
    if ops != [] {
      HistoryFront(ops);
      var front := ops[..|ops| - 1];
      k := RunKeepsSuffix(size, limit, front);
      k := StepKeepsSuffix(size, limit, Run(size, limit, front), History(front), ops[|ops| - 1], k);
    }
  }

  /** Row r has been stored, and no cutoff since has been after its time. */
  ghost predicate StoredSince(ops: seq<Op>, r: Row) {
    exists i :: 0 <= i < |ops| && ops[i].StoreOp? && ops[i].row == r && NotCutAfter(ops, i, r.time)
  }

  predicate NotCutAfter(ops: seq<Op>, i: int, time: int) {
    forall j :: i < j < |ops| && 0 <= j ==> ops[j].cutoff <= time
  }

  lemma StoredSinceNext(ops: seq<Op>, r: Row)
    requires ops != []
    ensures var front, op := ops[..|ops| - 1], ops[|ops| - 1];
      StoredSince(ops, r) <==> (StoredSince(front, r) && op.cutoff <= r.time) || (op.StoreOp? && op.row == r)
  {
    var n := |ops| - 1;
    var front, op := ops[..n], ops[n];
    if StoredSince(ops, r) {
      var i :| 0 <= i < |ops| && ops[i].StoreOp? && ops[i].row == r && NotCutAfter(ops, i, r.time);
      if i < n { assert front[i].row == r && NotCutAfter(front, i, r.time); }
    }
    if StoredSince(front, r) && op.cutoff <= r.time {
      var i :| 0 <= i < n && front[i].StoreOp? && front[i].row == r && NotCutAfter(front, i, r.time);
      assert forall j :: 0 <= j < n ==> front[j] == ops[j];
      assert ops[i].row == r && NotCutAfter(ops, i, r.time);
    }
    if op.StoreOp? && op.row == r { assert ops[n].row == r && NotCutAfter(ops, n, r.time); }
  }

  /** Over every run that rotates by date, whatever the clock does: a row is in the table
      exactly when it has been stored and no later cutoff has passed it. */
  lemma {:induction false} RunByDate(size: seq<Row> -> nat, ops: seq<Op>, r: Row)
    ensures r in Run(size, None, ops) <==> StoredSince(ops, r)
  {
    if ops != [] {
      var front, op := ops[..|ops| - 1], ops[|ops| - 1];
      RunByDate(size, front, r);
      StoredSinceNext(ops, r);
      KeepFromExactly(Run(size, None, front), op.cutoff);
      assert r in KeepFrom(Run(size, None, front), op.cutoff) <==> r in Run(size, None, front) && op.cutoff <= r.time;
    }
  }

  /** The operations that store an error, without the ones that list them. */
  function Stores(ops: seq<Op>): (r: seq<Op>)
    ensures forall op :: op in r ==> op.StoreOp?
  {
    if ops == [] then []
    else Stores(ops[..|ops| - 1]) + if ops[|ops| - 1].StoreOp? then [ops[|ops| - 1]] else []
  }

  /** When rotation goes by size, listing the errors changes nothing. */
  lemma {:induction false} RunBySize(size: seq<Row> -> nat, limit: int, ops: seq<Op>)
    ensures Run(size, Some(limit), ops) == Run(size, Some(limit), Stores(ops))
  {
    if ops != [] {
      var front, op := ops[..|ops| - 1], ops[|ops| - 1];
      assert ops == front + [op];
      RunBySize(size, limit, front);
      RunNext(size, Some(limit), front, op);
      OneMoreBySize(size, limit, front, op);
    }
  }

  lemma OneMoreBySize(size: seq<Row> -> nat, limit: int, front: seq<Op>, op: Op)
    ensures Run(size, Some(limit), Stores(front + [op])) ==
      Step(Run(size, Some(limit), Stores(front)), size, Some(limit), op)
  {
    assert (front + [op])[..|front|] == front;
    if op.StoreOp? {
      assert Stores(front + [op]) == Stores(front) + [op];
      RunNext(size, Some(limit), Stores(front), op);
    } else {
      assert Stores(front + [op]) == Stores(front);
    }
  }

  lemma RunNext(size: seq<Row> -> nat, limit: Option<int>, ops: seq<Op>, op: Op)
    ensures Run(size, limit, ops + [op]) == Step(Run(size, limit, ops), size, limit, op)
  {
    assert (ops + [op])[..|ops|] == ops;
  }
}
