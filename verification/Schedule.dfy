/** The key generators that walk a table of timed segments: `TPTestCRUD`, whose table has a loop construct, and
    `TimedCRUD`, whose table has none. The interpreter keeps its position in mutable fields; what it emits is compared
    with a declarative unrolling of the table.

    `_op_count` is incremented both by `_gen_op_kind` and by `workload`, so a segment of count c emits half as many
    operations, rounded up. Counts are reals, as they are multiples of the request rate. */
module Schedule {
  import opened Numbers

  type Kind = string

  /** A table row; `loopStart` holds `loop_cnt` when the row has `loop_start` set. */
  datatype Segment = Segment(op: Kind, cnt: real, loopStart: LoopStart, loopEnd: bool)

  datatype LoopStart = NoLoop | LoopCount(count: real)

  function Plain(op: Kind, cnt: real): Segment { Segment(op, cnt, NoLoop, false) }

  /** The generator's fields. */
  datatype Cursor = Cursor(opCount: int, opIndex: nat, looping: bool, loopIdx: nat, loopCounter: real)

  const START := Cursor(0, 0, false, 0, 0.0)

  /** The generator's answer: a kind, or Python's IndexError once the table is exhausted. */
  datatype Answer = Emit(kind: Kind) | IndexError

  // ---------------------------------------------------------------------------------------------- one step

  /** Leaving an exhausted segment (the else branch of `_gen_op_kind`). */
  function Leave(table: seq<Segment>, c: Cursor): Cursor
    requires c.opIndex < |table|
  {
    var row := table[c.opIndex];
    var entered :=
      if row.loopStart.LoopCount? && !c.looping
      then c.(looping := true, loopIdx := c.opIndex, loopCounter := row.loopStart.count)
      else c;
    var moved :=
      if row.loopEnd && entered.looping then
        var left := entered.loopCounter - 1.0;
        if left <= 0.0 then entered.(loopCounter := left, opIndex := entered.loopIdx + 1, looping := false)
        else entered.(loopCounter := left, opIndex := entered.loopIdx)
      else entered.(opIndex := entered.opIndex + 1);
    moved.(opCount := 0)
  }

  /** What holds of a cursor at every moment: while looping, the loop's first row is a row at or before the index. */
  predicate Sound(table: seq<Segment>, c: Cursor) {
    c.opIndex <= |table| && (c.looping ==> c.loopIdx <= c.opIndex && c.loopIdx < |table|)
  }

  /** The termination measure: how far the outermost position still is from the end, counting a loop row twice (before
      and while it loops); then the passes left; then the rows left in this pass. */
  function Rank(table: seq<Segment>, c: Cursor): nat
    requires Sound(table, c)
  {
    if c.looping then 2 * (|table| - c.loopIdx) else 2 * (|table| - c.opIndex) + 1
  }

  function Passes(c: Cursor): nat { if c.looping && c.loopCounter > 0.0 then Ceil(c.loopCounter) else 0 }

  /** How far the count is from the row's. */
  function Rest(c: Cursor, cnt: real): nat { if c.opCount as real < cnt then Ceil(cnt) - c.opCount else 0 }

  function RowsLeft(table: seq<Segment>, c: Cursor): nat
    requires Sound(table, c)
  {
    |table| - c.opIndex
  }

  /** For any table whatever, leaving a segment brings the end nearer. */
  lemma LeaveDecreases(table: seq<Segment>, c: Cursor)
    requires Sound(table, c) && c.opIndex < |table|
    ensures var c' := Leave(table, c);
      && Sound(table, c')
      && (Rank(table, c') < Rank(table, c)
          || (Rank(table, c') == Rank(table, c) && Passes(c') < Passes(c))
          || (Rank(table, c') == Rank(table, c) && Passes(c') == Passes(c) && RowsLeft(table, c') < RowsLeft(table, c)))
  {
  }

  /** `_gen_op_kind` as a function of the fields. */
  function Gen(table: seq<Segment>, c: Cursor): (r: (Answer, Cursor))
    requires Sound(table, c)
    ensures Sound(table, r.1)
    decreases Rank(table, c), Passes(c), RowsLeft(table, c)
  {
    if c.opIndex >= |table| then (IndexError, c)
    else if c.opCount as real < table[c.opIndex].cnt then (Emit(table[c.opIndex].op), c.(opCount := c.opCount + 1))
    else
      LeaveDecreases(table, c);
      Gen(table, Leave(table, c))
  }

  function Todo(table: seq<Segment>, c: Cursor): nat {
    if c.opIndex < |table| then Rest(c, table[c.opIndex].cnt) else 0
  }

  /** `workload` increments the count once more before it yields. */
  function Yielded(c: Cursor): Cursor { c.(opCount := c.opCount + 1) }

  lemma {:induction false} GenDecreases(table: seq<Segment>, c: Cursor)
    requires Sound(table, c) && Gen(table, c).0.Emit?
    ensures var c' := Yielded(Gen(table, c).1);
      && Sound(table, c')
      && (Rank(table, c') < Rank(table, c)
          || (Rank(table, c') == Rank(table, c) && Passes(c') < Passes(c))
          || (Rank(table, c') == Rank(table, c) && Passes(c') == Passes(c) && RowsLeft(table, c') < RowsLeft(table, c))
          || (Rank(table, c') == Rank(table, c) && Passes(c') == Passes(c) && RowsLeft(table, c') == RowsLeft(table, c)
              && Todo(table, c') < Todo(table, c)))
    decreases Rank(table, c), Passes(c), RowsLeft(table, c)
  {
    if c.opCount as real >= table[c.opIndex].cnt {
      LeaveDecreases(table, c);
      GenDecreases(table, Leave(table, c));
    }
  }

  /** Everything `workload` yields from a cursor until the IndexError ends it. */
  function Emitted(table: seq<Segment>, c: Cursor): seq<Kind>
    requires Sound(table, c)
    decreases Rank(table, c), Passes(c), RowsLeft(table, c), Todo(table, c)
  {
    var (answer, c') := Gen(table, c);
    if answer.IndexError? then []
    else
      GenDecreases(table, c);
      [answer.kind] + Emitted(table, Yielded(c'))
  }

  // ---------------------------------------------------------------------------------------------- the generator

  class Generator {
    const table: seq<Segment>
    var opCount: int
    var opIndex: nat
    var looping: bool
    var loopIdx: nat
    var loopCounter: real

    function Fields(): Cursor
      reads this
    {
      Cursor(opCount, opIndex, looping, loopIdx, loopCounter)
    }

    predicate Valid()
      reads this
    {
      Sound(table, Fields())
    }

    constructor (table: seq<Segment>)
      ensures this.table == table && Valid() && Fields() == START
    {
      this.table := table;
      opCount, opIndex, looping, loopIdx, loopCounter := 0, 0, false, 0, 0.0;
    }

    /** `_gen_op_kind`: field updates and a tail call, for whatever table. */
    method GenOpKind() returns (answer: Answer)
      requires Valid()
      modifies this
      ensures Valid()
      ensures (answer, Fields()) == Gen(table, old(Fields()))
      decreases Rank(table, Fields()), Passes(Fields()), RowsLeft(table, Fields())
    {
      if opIndex >= |table| {
        return IndexError;
      }
      var row := table[opIndex];
      if opCount as real < row.cnt {
        opCount := opCount + 1;
        return Emit(row.op);
      }
      ghost var before := Fields();
      LeaveDecreases(table, before);
      if row.loopStart.LoopCount? && !looping {
        looping := true;
        loopIdx := opIndex;
        loopCounter := row.loopStart.count;
      }
      if row.loopEnd && looping {
        loopCounter := loopCounter - 1.0;
        opIndex := loopIdx;
        if loopCounter <= 0.0 {
          looping := false;
          opIndex := opIndex + 1;
        }
      } else {
        opIndex := opIndex + 1;
      }
      opCount := 0;
      assert Fields() == Leave(table, before);
      answer := GenOpKind();
    }

    /** `workload`, run until the table is exhausted. */
    method Workload() returns (kinds: seq<Kind>)
      requires Valid()
      modifies this
      ensures kinds == Emitted(table, old(Fields()))
    {
      kinds := [];
      var running := true;
      while running
        invariant Valid()
        invariant kinds + (if running then Emitted(table, Fields()) else []) == Emitted(table, old(Fields()))
        decreases running, Rank(table, Fields()), Passes(Fields()), RowsLeft(table, Fields()), Todo(table, Fields())
      {
        ghost var before := Fields();
        var answer := GenOpKind();
        match answer
        case IndexError => running := false;
        case Emit(kind) =>
          GenDecreases(table, before);
          opCount := opCount + 1;
          Assoc(kinds, [kind], Emitted(table, Fields()));
          kinds := kinds + [kind];
          assert Fields() == Yielded(Gen(table, before).1);
      }
    }
  }

  // ---------------------------------------------------------------------------------------------- unrolling

  /** The first row at or after `i` that closes a loop, or the end of the table. */
  function FirstEnd(table: seq<Segment>, i: nat): (e: nat)
    requires i <= |table|
    ensures i <= e <= |table| && (e < |table| ==> table[e].loopEnd)
    decreases |table| - i
  {
    if i == |table| || table[i].loopEnd then i else FirstEnd(table, i + 1)
  }

  function Times<T>(s: seq<T>, n: nat): seq<T> { if n == 0 then [] else s + Times(s, n - 1) }

  /** The segments a generator outside any loop visits from row `i` on. A row that starts a loop is visited with the
      rows up to the next loop end as often as its count says, at least once; then everything after that first row is
      visited again from outside the loop. */
  function Unroll(table: seq<Segment>, i: nat): seq<Segment>
    requires i <= |table|
    decreases |table| - i
  {
    if i == |table| then []
    else if table[i].loopStart.NoLoop? then [table[i]] + Unroll(table, i + 1)
    else
      var e := FirstEnd(table, i);
      if e == |table| then table[i..]
      else Times(table[i..e + 1], Max(1, Ceil(table[i].loopStart.count))) + Unroll(table, i + 1)
  }

  /** The operations a segment emits, given the double increment. */
  function Emits(cnt: int): nat { if cnt <= 0 then 0 else (cnt + 1) / 2 }

  function Expand(rows: seq<Segment>): seq<Kind> {
    if rows == [] then [] else ExpandRow(rows[0]) + Expand(rows[1..])
  }

  /** What one row expands to. */
  function ExpandRow(row: Segment): seq<Kind> { Times([row.op], Emits(Ceil(row.cnt))) }

  lemma Assoc<T>(a: seq<T>, b: seq<T>, c: seq<T>)
    ensures (a + b) + c == a + (b + c)
  {
  }

  lemma {:induction false} ExpandConcat(a: seq<Segment>, b: seq<Segment>)
    ensures Expand(a + b) == Expand(a) + Expand(b)
  {
    if a == [] {
      assert a + b == b;
    } else {
      ExpandConcat(a[1..], b);
      assert (a + b)[0] == a[0] && (a + b)[1..] == a[1..] + b;
      Assoc(ExpandRow(a[0]), Expand(a[1..]), Expand(b));
    }
  }

  lemma EmittedOne(table: seq<Segment>, c: Cursor)
    requires Sound(table, c) && c.opIndex < |table| && c.opCount as real < table[c.opIndex].cnt
    ensures Emitted(table, c) == [table[c.opIndex].op] + Emitted(table, c.(opCount := c.opCount + 2))
  {
    assert Gen(table, c) == (Emit(table[c.opIndex].op), c.(opCount := c.opCount + 1));
  }

  lemma EmittedNone(table: seq<Segment>, c: Cursor)
    requires Sound(table, c) && c.opIndex < |table| && table[c.opIndex].cnt <= c.opCount as real
    ensures Sound(table, Leave(table, c)) && Emitted(table, c) == Emitted(table, Leave(table, c))
  {
    LeaveDecreases(table, c);
    assert Gen(table, c) == Gen(table, Leave(table, c));
  }

  lemma LeaveForgets(table: seq<Segment>, c: Cursor, n: int)
    requires c.opIndex < |table|
    ensures Leave(table, c.(opCount := n)) == Leave(table, c)
  {
  }

  /** A row is emitted in full, then left. */
  lemma {:induction false} EmittedRow(table: seq<Segment>, c: Cursor)
    requires Sound(table, c) && c.opIndex < |table|
    ensures Sound(table, Leave(table, c))
    ensures Emitted(table, c)
         == Times([table[c.opIndex].op], Emits(Ceil(table[c.opIndex].cnt) - c.opCount))
            + Emitted(table, Leave(table, c))
    decreases Rest(c, table[c.opIndex].cnt)
  {
    var row := table[c.opIndex];
    var todo := Ceil(row.cnt) - c.opCount;
    LeaveDecreases(table, c);
    CeilIs(row.cnt, c.opCount);
    if c.opCount as real < row.cnt {
      EmittedOne(table, c);
      LeaveForgets(table, c, c.opCount + 2);
      EmittedRow(table, c.(opCount := c.opCount + 2));
      TimesMore([row.op], Emits(todo - 2));
      Assoc([row.op], Times([row.op], Emits(todo - 2)), Emitted(table, Leave(table, c)));
    } else {
      EmittedNone(table, c);
    }
  }

  function Outside(i: nat, idx: nat, counter: real): Cursor { Cursor(0, i, false, idx, counter) }

  function Inside(i: nat, idx: nat, counter: real): Cursor { Cursor(0, i, true, idx, counter) }

  /** Where the generator goes after the last row of a pass. */
  function AfterPass(s: nat, k: real): Cursor {
    if k - 1.0 <= 0.0 then Outside(s + 1, s, k - 1.0) else Inside(s, s, k - 1.0)
  }

  /** Inside a loop no row but the first loop end matters. */
  lemma {:induction false} EmittedUnclosed(table: seq<Segment>, i: nat, s: nat, k: real)
    requires s <= i <= |table| && s < |table| && FirstEnd(table, i) == |table|
    ensures Emitted(table, Inside(i, s, k)) == Expand(table[i..])
    decreases |table| - i
  {
    if i < |table| {
      EmittedRow(table, Inside(i, s, k));
      EmittedUnclosed(table, i + 1, s, k);
      assert table[i..][1..] == table[i + 1..];
    }
  }

  lemma EmittedInside(table: seq<Segment>, i: nat, s: nat, k: real)
    requires s <= i < |table|
    ensures Emitted(table, Inside(i, s, k))
         == ExpandRow(table[i]) + Emitted(table, if table[i].loopEnd then AfterPass(s, k) else Inside(i + 1, s, k))
  {
    EmittedRow(table, Inside(i, s, k));
    assert Leave(table, Inside(i, s, k)) == if table[i].loopEnd then AfterPass(s, k) else Inside(i + 1, s, k);
  }

  lemma ExpandCons(row: Segment, rows: seq<Segment>)
    ensures Expand([row] + rows) == ExpandRow(row) + Expand(rows)
  {
    assert ([row] + rows)[1..] == rows;
  }

  /** The rows from row i to the next loop end. */
  function Pass(table: seq<Segment>, i: nat): seq<Segment>
    requires i <= |table|
    decreases |table| - i
  {
    if i == |table| then []
    else [table[i]] + (if table[i].loopEnd then [] else Pass(table, i + 1))
  }

  lemma {:induction false} PassIsSlice(table: seq<Segment>, i: nat)
    requires i <= |table| && FirstEnd(table, i) < |table|
    ensures Pass(table, i) == table[i..FirstEnd(table, i) + 1]
    decreases |table| - i
  {
    if !table[i].loopEnd {
      PassIsSlice(table, i + 1);
    }
  }

  lemma {:induction false} EmittedPass(table: seq<Segment>, i: nat, s: nat, k: real)
    requires s <= i <= |table| && s < |table| && FirstEnd(table, i) < |table|
    ensures Emitted(table, Inside(i, s, k)) == Expand(Pass(table, i)) + Emitted(table, AfterPass(s, k))
    decreases |table| - i
  {
    EmittedInside(table, i, s, k);
    if table[i].loopEnd {
      ExpandCons(table[i], []);
    } else {
      EmittedPass(table, i + 1, s, k);
      ExpandCons(table[i], Pass(table, i + 1));
      Assoc(ExpandRow(table[i]), Expand(Pass(table, i + 1)), Emitted(table, AfterPass(s, k)));
    }
  }

  lemma TimesMore<T>(s: seq<T>, n: nat)
    ensures Times(s, n + 1) == s + Times(s, n)
  {
  }

  lemma ExpandTimesMore(body: seq<Segment>, n: nat)
    ensures Expand(Times(body, n + 1)) == Expand(body) + Expand(Times(body, n))
    ensures Expand(Times(body, 0)) == []
  {
    TimesMore(body, n);
    ExpandConcat(body, Times(body, n));
  }

  /** The rows of one pass of the loop that starts at row s. */
  function Body(table: seq<Segment>, s: nat): seq<Segment>
    requires s < |table| && FirstEnd(table, s) < |table|
  {
    table[s..FirstEnd(table, s) + 1]
  }

  lemma PassesLeft(k: real)
    ensures Max(1, Ceil(k)) == if k > 1.0 then 1 + Max(1, Ceil(k - 1.0)) else 1
    ensures k > 1.0 ==> Max(1, Ceil(k - 1.0)) == Ceil(k) - 1
  {
    CeilIs(k, 1);
    CeilIs(k - 1.0, Ceil(k) - 1);
  }

  lemma OneMorePass(table: seq<Segment>, s: nat, k: real, n: nat, rest: seq<Kind>)
    requires s < |table| && FirstEnd(table, s) < |table|
    requires Emitted(table, AfterPass(s, k)) == Expand(Times(Pass(table, s), n)) + rest
    ensures Emitted(table, Inside(s, s, k)) == Expand(Times(Pass(table, s), n + 1)) + rest
  {
    EmittedPass(table, s, s, k);
    ExpandTimesMore(Pass(table, s), n);
    Assoc(Expand(Pass(table, s)), Expand(Times(Pass(table, s), n)), rest);
  }

  /** All n passes of a loop, and the counter left behind. */
  lemma {:induction false} EmittedPasses(table: seq<Segment>, s: nat, k: real, n: nat) returns (left: real)
    requires s < |table| && FirstEnd(table, s) < |table| && n == Max(1, Ceil(k))
    ensures Emitted(table, Inside(s, s, k))
         == Expand(Times(Pass(table, s), n)) + Emitted(table, Outside(s + 1, s, left))
    decreases n
  {
    PassesLeft(k);
    if k > 1.0 {
      left := EmittedPasses(table, s, k - 1.0, n - 1);
    } else {
      left := k - 1.0;
      assert AfterPass(s, k) == Outside(s + 1, s, left);
    }
    OneMorePass(table, s, k, n - 1, Emitted(table, Outside(s + 1, s, left)));
  }

  lemma EmittedPlain(table: seq<Segment>, i: nat, idx: nat, k: real)
    requires i < |table| && table[i].loopStart.NoLoop?
    ensures Emitted(table, Outside(i, idx, k)) == ExpandRow(table[i]) + Emitted(table, Outside(i + 1, idx, k))
  {
    EmittedRow(table, Outside(i, idx, k));
    assert Leave(table, Outside(i, idx, k)) == Outside(i + 1, idx, k);
  }

  /** The interpreter refines the unrolling, from any row outside a loop and for any table. */
  lemma {:induction false} EmittedOutside(table: seq<Segment>, i: nat, idx: nat, k: real)
    requires i <= |table|
    ensures Emitted(table, Outside(i, idx, k)) == Expand(Unroll(table, i))
    decreases |table| - i, 1
  {
    if i < |table| {
      if table[i].loopStart.NoLoop? {
        EmittedPlain(table, i, idx, k);
        EmittedOutside(table, i + 1, idx, k);
        ExpandCons(table[i], Unroll(table, i + 1));
      } else {
        EmittedLoop(table, i, idx, k);
      }
    }
  }

  /** The row that starts a loop is emitted before the loop is entered, as it would be inside. */
  lemma EnterLoop(table: seq<Segment>, i: nat, idx: nat, k: real)
    requires i < |table| && table[i].loopStart.LoopCount?
    ensures Emitted(table, Outside(i, idx, k)) == Emitted(table, Inside(i, i, table[i].loopStart.count))
  {
    var inside := Inside(i, i, table[i].loopStart.count);
    EmittedRow(table, Outside(i, idx, k));
    EmittedRow(table, inside);
    assert Leave(table, Outside(i, idx, k)) == Leave(table, inside);
  }

  lemma UnrollLoop(table: seq<Segment>, s: nat)
    requires s < |table| && table[s].loopStart.LoopCount? && FirstEnd(table, s) < |table|
    ensures Unroll(table, s) == Times(Body(table, s), Max(1, Ceil(table[s].loopStart.count))) + Unroll(table, s + 1)
  {
  }

  lemma UnrolledPasses(table: seq<Segment>, i: nat)
    requires i < |table| && table[i].loopStart.LoopCount? && FirstEnd(table, i) < |table|
    ensures Unroll(table, i) == Times(Pass(table, i), Max(1, Ceil(table[i].loopStart.count))) + Unroll(table, i + 1)
  {
    PassIsSlice(table, i);
    UnrollLoop(table, i);
  }

  lemma {:induction false} EmittedLoop(table: seq<Segment>, i: nat, idx: nat, k: real)
    requires i < |table| && table[i].loopStart.LoopCount?
    ensures Emitted(table, Outside(i, idx, k)) == Expand(Unroll(table, i))
    decreases |table| - i, 0
  {
    var count, e := table[i].loopStart.count, FirstEnd(table, i);
    EnterLoop(table, i, idx, k);
    if e == |table| {
      EmittedUnclosed(table, i, i, count);
    } else {
      var n := Max(1, Ceil(count));
      var left := EmittedPasses(table, i, count, n);
      EmittedOutside(table, i + 1, i, left);
      UnrolledPasses(table, i);
      ExpandConcat(Times(Pass(table, i), n), Unroll(table, i + 1));
    }
  }

  /** What the generator emits over its whole life is the expansion of the unrolled table. */
  lemma EmitsUnrolling(table: seq<Segment>)
    ensures Emitted(table, START) == Expand(Unroll(table, 0))
  {
    EmittedOutside(table, 0, 0, 0.0);
  }

  // ---------------------------------------------------------------------------------------------- one loop

  predicate StartsLoop(table: seq<Segment>, k: int) { 0 <= k < |table| && table[k].loopStart.LoopCount? }

  predicate EndsLoop(table: seq<Segment>, k: int) { 0 <= k < |table| && table[k].loopEnd }

  /** The only loop of the table is rows s..e. */
  ghost predicate OnlyLoop(table: seq<Segment>, s: nat, e: nat) {
    s <= e < |table| && forall k :: (StartsLoop(table, k) <==> k == s) && (EndsLoop(table, k) <==> k == e)
  }

  lemma {:induction false} UnrollStraight(table: seq<Segment>, i: nat)
    requires i <= |table| && forall k :: i <= k ==> !StartsLoop(table, k)
    ensures Unroll(table, i) == table[i..]
    decreases |table| - i
  {
    if i < |table| {
      assert !StartsLoop(table, i);
      UnrollStraight(table, i + 1);
    }
  }

  lemma SliceCons<T>(s: seq<T>, i: nat, j: nat)
    requires i < j <= |s|
    ensures s[i..j] == [s[i]] + s[i + 1..j]
  {
  }

  lemma UnrollPlain(table: seq<Segment>, i: nat)
    requires i < |table| && table[i].loopStart.NoLoop?
    ensures Unroll(table, i) == [table[i]] + Unroll(table, i + 1)
  {
  }

  lemma {:induction false} UnrollUpTo(table: seq<Segment>, i: nat, s: nat)
    requires i <= s <= |table| && forall k :: i <= k < s ==> !StartsLoop(table, k)
    ensures Unroll(table, i) == table[i..s] + Unroll(table, s)
    decreases s - i
  {
    if i < s {
      assert !StartsLoop(table, i);
      UnrollUpTo(table, i + 1, s);
      SliceCons(table, i, s);
      Assoc([table[i]], table[i + 1..s], Unroll(table, s));
      UnrollPlain(table, i);
    } else {
      assert table[i..s] == [];
    }
  }

  lemma {:induction false} FirstEndBefore(table: seq<Segment>, i: nat, e: nat)
    requires i <= e < |table| && table[e].loopEnd
    ensures FirstEnd(table, i) <= e
    decreases |table| - i
  {
    if !table[i].loopEnd {
      FirstEndBefore(table, i + 1, e);
    }
  }

  lemma OnlyEnd(table: seq<Segment>, s: nat, e: nat)
    requires OnlyLoop(table, s, e)
    ensures FirstEnd(table, s) == e
  {
    assert EndsLoop(table, e);
    FirstEndBefore(table, s, e);
    assert EndsLoop(table, FirstEnd(table, s));
  }

  /** A table with one loop s..e: the rows before it, the loop as often as its count says (at least once), and then
      everything after row s, that is the loop's other rows once more and the rows after the loop. */
  lemma OneLoop(table: seq<Segment>, s: nat, e: nat)
    requires OnlyLoop(table, s, e) && StartsLoop(table, s)
    ensures Unroll(table, 0)
         == table[..s] + (Times(table[s..e + 1], Max(1, Ceil(table[s].loopStart.count))) + table[s + 1..])
  {
    UnrollUpTo(table, 0, s);
    OnlyEnd(table, s, e);
    assert StartsLoop(table, s);
    UnrollLoop(table, s);
    UnrollStraight(table, s + 1);
    assert table[0..s] == table[..s];
  }

  // ---------------------------------------------------------------------------------------------- as declared

  /** The rows a table asks for: a loop as often as its count says, and then on from the row after its last. */
  function DeclaredRows(table: seq<Segment>, i: nat): seq<Segment>
    requires i <= |table|
    decreases |table| - i
  {
    if i == |table| then []
    else if table[i].loopStart.NoLoop? then [table[i]] + DeclaredRows(table, i + 1)
    else
      var e := FirstEnd(table, i);
      if e == |table| then table[i..]
      else Times(table[i..e + 1], Max(0, Ceil(table[i].loopStart.count))) + DeclaredRows(table, e + 1)
  }

  /** Row k starts a loop that is closed. */
  predicate ClosedLoop(table: seq<Segment>, k: int) { StartsLoop(table, k) && FirstEnd(table, k) < |table| }

  /** A loop of one row, to be run at least once. */
  predicate SingleRow(table: seq<Segment>, k: int)
    requires StartsLoop(table, k)
  {
    FirstEnd(table, k) == k && table[k].loopStart.count > 0.0
  }

  ghost predicate SingleRowLoops(table: seq<Segment>, i: nat) {
    forall k :: i <= k && ClosedLoop(table, k) ==> SingleRow(table, k)
  }

  /** The same, row by row. */
  predicate AllSingle(table: seq<Segment>, i: nat)
    requires i <= |table|
    decreases |table| - i
  {
    i == |table| || ((ClosedLoop(table, i) ==> SingleRow(table, i)) && AllSingle(table, i + 1))
  }

  lemma {:induction false} AllSingleIff(table: seq<Segment>, i: nat)
    requires i <= |table|
    ensures AllSingle(table, i) <==> SingleRowLoops(table, i)
    decreases |table| - i
  {
    if i < |table| {
      AllSingleIff(table, i + 1);
    }
  }

  lemma {:induction false} TimesLength<T>(s: seq<T>, n: nat)
    ensures |Times(s, n)| == n * |s|
  {
    if n > 0 {
      TimesLength(s, n - 1);
      assert n * |s| == (n - 1) * |s| + |s|;
    }
  }

  /** Without a loop end the unrolling is the rest of the table. */
  lemma {:induction false} UnrollUnclosed(table: seq<Segment>, i: nat)
    requires i <= |table| && FirstEnd(table, i) == |table|
    ensures Unroll(table, i) == table[i..]
    decreases |table| - i
  {
    if i < |table| {
      UnrollUnclosed(table, i + 1);
    }
  }

  /** Every row from i on is visited at least once. */
  lemma {:induction false} UnrollGrows(table: seq<Segment>, i: nat, j: nat)
    requires i <= j <= |table|
    ensures |Unroll(table, i)| >= j - i + |Unroll(table, j)|
    decreases j - i
  {
    if i < j {
      UnrollGrows(table, i + 1, j);
      if table[i].loopStart.LoopCount? {
        if FirstEnd(table, i) == |table| {
          UnrollUnclosed(table, i);
          UnrollUnclosed(table, i + 1);
        } else {
          UnrollLoop(table, i);
          var n := Max(1, Ceil(table[i].loopStart.count));
          TimesLength(Body(table, i), n);
          AtLeastOnce(n, |Body(table, i)|);
        }
      }
    }
  }

  lemma AtLeastOnce(n: int, d: int)
    requires n >= 1 && d >= 1
    ensures n * d >= d
    ensures n >= 2 ==> n * d > d
  {
    assert (n - 1) * d >= 0;
    if n >= 2 {
      assert (n - 2) * d >= 0;
    }
  }

  /** No fewer rows are visited than declared; as many only if every loop has a single row, and then they are the
      declared ones. */
  predicate Shorter(table: seq<Segment>, i: nat)
    requires i <= |table|
  {
    && |DeclaredRows(table, i)| <= |Unroll(table, i)|
    && (|DeclaredRows(table, i)| == |Unroll(table, i)| ==> AllSingle(table, i))
    && (AllSingle(table, i) ==> DeclaredRows(table, i) == Unroll(table, i))
  }

  lemma ShorterPlain(table: seq<Segment>, i: nat)
    requires i < |table| && table[i].loopStart.NoLoop? && Shorter(table, i + 1)
    ensures Shorter(table, i)
  {
    UnrollPlain(table, i);
    assert DeclaredRows(table, i) == [table[i]] + DeclaredRows(table, i + 1);
    assert AllSingle(table, i) <==> AllSingle(table, i + 1);
  }

  lemma ShorterClosed(table: seq<Segment>, i: nat)
    requires ClosedLoop(table, i) && Shorter(table, i + 1) && Shorter(table, FirstEnd(table, i) + 1)
    ensures Shorter(table, i)
  {
    DeclaredLoopLength(table, i);
    assert AllSingle(table, i) <==> SingleRow(table, i) && AllSingle(table, i + 1);
    if SingleRow(table, i) {
      SingleRowAsDeclared(table, i);
    }
  }

  lemma ShorterUnclosed(table: seq<Segment>, i: nat)
    requires i < |table| && table[i].loopStart.LoopCount? && FirstEnd(table, i) == |table|
    ensures Shorter(table, i)
  {
    UnrollUnclosed(table, i);
    AllSingleUnclosed(table, i);
    assert DeclaredRows(table, i) == table[i..];
  }

  lemma {:induction false} DeclaredIsShorter(table: seq<Segment>, i: nat)
    requires i <= |table|
    ensures Shorter(table, i)
    decreases |table| - i
  {
    if i < |table| {
      DeclaredIsShorter(table, i + 1);
      if table[i].loopStart.NoLoop? {
        ShorterPlain(table, i);
      } else if FirstEnd(table, i) == |table| {
        ShorterUnclosed(table, i);
      } else {
        DeclaredIsShorter(table, FirstEnd(table, i) + 1);
        ShorterClosed(table, i);
      }
    }
  }

  lemma {:induction false} AllSingleUnclosed(table: seq<Segment>, i: nat)
    requires i <= |table| && FirstEnd(table, i) == |table|
    ensures AllSingle(table, i)
    decreases |table| - i
  {
    if i < |table| {
      AllSingleUnclosed(table, i + 1);
    }
  }

  /** What a loop contributes, as declared and as visited. */
  function DeclaredPasses(table: seq<Segment>, i: nat): seq<Segment>
    requires ClosedLoop(table, i)
  {
    Times(Body(table, i), Max(0, Ceil(table[i].loopStart.count)))
  }

  function VisitedPasses(table: seq<Segment>, i: nat): seq<Segment>
    requires ClosedLoop(table, i)
  {
    Times(Body(table, i), Max(1, Ceil(table[i].loopStart.count)))
  }

  lemma LoopParts(table: seq<Segment>, i: nat)
    requires ClosedLoop(table, i)
    ensures DeclaredRows(table, i) == DeclaredPasses(table, i) + DeclaredRows(table, FirstEnd(table, i) + 1)
    ensures Unroll(table, i) == VisitedPasses(table, i) + Unroll(table, i + 1)
  {
  }

  lemma PassesVisited(table: seq<Segment>, i: nat)
    requires ClosedLoop(table, i)
    ensures |DeclaredPasses(table, i)| <= |VisitedPasses(table, i)|
    ensures table[i].loopStart.count > 0.0 ==> DeclaredPasses(table, i) == VisitedPasses(table, i)
    ensures table[i].loopStart.count <= 0.0 ==> |DeclaredPasses(table, i)| < |VisitedPasses(table, i)|
  {
    CeilIs(table[i].loopStart.count, 0);
    if table[i].loopStart.count <= 0.0 {
      TimesLength(Body(table, i), 1);
    }
  }

  lemma DeclaredLoopLength(table: seq<Segment>, i: nat)
    requires ClosedLoop(table, i)
    requires |DeclaredRows(table, FirstEnd(table, i) + 1)| <= |Unroll(table, FirstEnd(table, i) + 1)|
    ensures |DeclaredRows(table, i)| <= |Unroll(table, i)|
    ensures |DeclaredRows(table, i)| == |Unroll(table, i)| ==>
      SingleRow(table, i) && |DeclaredRows(table, i + 1)| == |Unroll(table, i + 1)|
  {
    var e := FirstEnd(table, i);
    LoopParts(table, i);
    PassesVisited(table, i);
    UnrollGrows(table, i + 1, e + 1);
    NothingLeftOver(|DeclaredPasses(table, i)|, |VisitedPasses(table, i)|, |DeclaredRows(table, e + 1)|,
                    |Unroll(table, e + 1)|, |Unroll(table, i + 1)|, e - i);
  }

  /** Where sums are equal their parts are. */
  lemma NothingLeftOver(declared: int, visited: int, later: int, laterVisited: int, next: int, extra: int)
    requires declared <= visited && later <= laterVisited && next >= extra + laterVisited && extra >= 0
    ensures declared + later <= visited + next
    ensures declared + later == visited + next ==> declared == visited && extra == 0 && later == next
  {
  }

  lemma SingleRowAsDeclared(table: seq<Segment>, i: nat)
    requires ClosedLoop(table, i) && SingleRow(table, i)
    ensures DeclaredRows(table, i + 1) == Unroll(table, i + 1) ==> DeclaredRows(table, i) == Unroll(table, i)
  {
    LoopParts(table, i);
    PassesVisited(table, i);
  }

  /** The interpreter visits the declared rows exactly when no closed loop has more than one row or a count that asks
      for no pass at all. */
  lemma LoopsAsDeclaredIff(table: seq<Segment>)
    ensures Unroll(table, 0) == DeclaredRows(table, 0) <==> SingleRowLoops(table, 0)
  {
    DeclaredIsShorter(table, 0);
    AllSingleIff(table, 0);
  }

  /** For a table with one loop s..e: exactly when s == e and the loop is to be run at all. */
  lemma OneLoopAsDeclaredIff(table: seq<Segment>, s: nat, e: nat)
    requires OnlyLoop(table, s, e) && StartsLoop(table, s)
    ensures Unroll(table, 0)
            == table[..s] + (Times(table[s..e + 1], Max(0, Ceil(table[s].loopStart.count))) + table[e + 1..])
       <==> s == e && table[s].loopStart.count > 0.0
  {
    var n := Ceil(table[s].loopStart.count);
    OneLoop(table, s, e);
    CeilIs(table[s].loopStart.count, 0);
    TimesLength(table[s..e + 1], Max(1, n));
    TimesLength(table[s..e + 1], Max(0, n));
  }

  /** A row emits as many operations as its count says exactly when the count is at most one. */
  lemma CountAsDeclaredIff(cnt: real)
    ensures Emits(Ceil(cnt)) == Max(0, Ceil(cnt)) <==> cnt <= 1.0
    ensures Emits(Ceil(cnt)) <= Max(0, Ceil(cnt))
  {
    CeilIs(cnt, 1);
  }

  /** What rows ask for: each as many operations as its count says. */
  function DeclaredKinds(rows: seq<Segment>): seq<Kind> {
    if rows == [] then []
    else Times([rows[0].op], Max(0, Ceil(rows[0].cnt))) + DeclaredKinds(rows[1..])
  }

  /** So rows are expanded as declared exactly when all their counts are at most one. */
  lemma {:induction false} CountsAsDeclaredIff(rows: seq<Segment>)
    ensures Expand(rows) == DeclaredKinds(rows) <==> forall k :: 0 <= k < |rows| ==> rows[k].cnt <= 1.0
    ensures |Expand(rows)| <= |DeclaredKinds(rows)|
    ensures |Expand(rows)| == |DeclaredKinds(rows)| ==> Expand(rows) == DeclaredKinds(rows)
  {
    if rows != [] {
      var row, rest := rows[0], rows[1..];
      CountsAsDeclaredIff(rest);
      CountAsDeclaredIff(row.cnt);
      TimesLength([row.op], Emits(Ceil(row.cnt)));
      TimesLength([row.op], Max(0, Ceil(row.cnt)));
      assert forall k :: 1 <= k < |rows| ==> rows[k] == rest[k - 1];
      if Expand(rows) == DeclaredKinds(rows) {
        assert |Expand(rest)| == |DeclaredKinds(rest)|;
      }
    }
  }

  /** Where the rows visited are the declared ones, what is emitted is what was asked for exactly when none of them has
      a count above one. (Where they are not, rows visited too often can make up for counts cut in half.) */
  lemma EmitsAsDeclaredIff(table: seq<Segment>)
    requires SingleRowLoops(table, 0)
    ensures var rows := DeclaredRows(table, 0);
      Emitted(table, START) == DeclaredKinds(rows) <==> forall k :: 0 <= k < |rows| ==> rows[k].cnt <= 1.0
  {
    EmitsUnrolling(table);
    LoopsAsDeclaredIff(table);
    CountsAsDeclaredIff(DeclaredRows(table, 0));
  }

  /** So they can: here the row visited once more makes up for what its count lost. */
  lemma HalvingCanBalance(first: Segment, last: Segment)
    requires first == Segment("r", 1.0, LoopCount(1.0), false) && last == Segment("r", 4.0, NoLoop, true)
    ensures var table := [first, last];
      && !SingleRowLoops(table, 0) && Unroll(table, 0) != DeclaredRows(table, 0)
      && Emitted(table, START) == DeclaredKinds(DeclaredRows(table, 0)) == ["r", "r", "r", "r", "r"]
  {
    var table := [first, last];
    CeilOfInteger(1);
    CeilOfInteger(4);
    assert OnlyLoop(table, 0, 1);
    OnlyEnd(table, 0, 1);
    OneLoop(table, 0, 1);
    assert table[0..2] == table && table[1..] == [last] && table[..0] == [];
    assert Times(table, 1) == table + [] == table;
    assert Unroll(table, 0) == [first] + ([last] + [last]);
    assert DeclaredRows(table, 0) == table + DeclaredRows(table, 2) == table;
    LoopsAsDeclaredIff(table);
    EmitsUnrolling(table);
    ReadsOf(first, last);
  }

  lemma ReadsOf(first: Segment, last: Segment)
    requires first.op == last.op == "r" && Ceil(first.cnt) == 1 && Ceil(last.cnt) == 4
    ensures Expand([first] + ([last] + [last])) == ["r", "r", "r", "r", "r"] == DeclaredKinds([first, last])
  {
    var r := ["r"];
    assert Times(r, 1) == r + Times(r, 0) == r;
    assert Times(r, 2) == r + Times(r, 1);
    assert Times(r, 4) == r + (r + Times(r, 2));
    ExpandCons(first, [last] + [last]);
    ExpandCons(last, [last]);
    ExpandCons(last, []);
    assert [last] + [] == [last];
    assert [first, last][1..] == [last] && [last][1..] == [];
    assert DeclaredKinds([last]) == Times(r, 4) + DeclaredKinds([]);
    assert DeclaredKinds([first, last]) == Times(r, 1) + DeclaredKinds([last]);
  }

  // ---------------------------------------------------------------------------------------------- TPTestCRUD

  /** `_op_timers` for a request rate. */
  function TPTestTable(rate: real): seq<Segment> {
    [Plain("r", rate * 6.0),
     Segment("u-u", 1.0, LoopCount(rate * 6.0), false),
     Plain("r", 4.0),
     Plain("u-d", 1.0),
     Segment("r", 4.0, NoLoop, true),
     Plain("d", 1.0),
     Plain("r", rate * 200.0)]
  }

  const CYCLE := ["u-u", "r", "r", "u-d", "r", "r"]

  lemma {:induction false} ExpandTimes(rows: seq<Segment>, n: nat)
    ensures Expand(Times(rows, n)) == Times(Expand(rows), n)
  {
    if n > 0 {
      ExpandTimes(rows, n - 1);
      ExpandConcat(rows, Times(rows, n - 1));
    }
  }

  lemma ExpandBody(up: Segment, read: Segment, down: Segment, last: Segment)
    requires up.op == "u-u" && up.cnt == 1.0 && down.op == "u-d" && down.cnt == 1.0
    requires read.op == last.op == "r" && read.cnt == last.cnt == 4.0
    ensures Expand([read, down, last]) == CYCLE[1..] && Expand([up, read, down, last]) == CYCLE
  {
    CeilOfInteger(1);
    CeilOfInteger(4);
    assert Times(["r"], 2) == ["r"] + Times(["r"], 1) && Times(["r"], 1) == ["r"] + Times(["r"], 0) == ["r"];
    assert ExpandRow(up) == ["u-u"] + Times(["u-u"], 0) && ExpandRow(down) == ["u-d"] + Times(["u-d"], 0);
    ExpandCons(last, []);
    ExpandCons(down, [last]);
    ExpandCons(read, [down, last]);
    ExpandCons(up, [read, down, last]);
    assert [up] + [read, down, last] == [up, read, down, last];
    assert [read] + [down, last] == [read, down, last] && [down] + [last] == [down, last] && [last] + [] == [last];
  }

  /** For a rate R: 3R reads, 6R cycles, the cycle once more without its first operation, the delete, and 100R reads;
      each number rounded up. */
  function TPTestKinds(rate: real): seq<Kind>
    requires rate > 0.0
  {
    Times(["r"], Ceil(3.0 * rate))
    + (Times(CYCLE, Ceil(6.0 * rate)) + (CYCLE[1..] + (["d"] + Times(["r"], Ceil(100.0 * rate)))))
  }

  lemma TPTestUnroll(rate: real)
    requires rate > 0.0
    ensures var t := TPTestTable(rate);
      Unroll(t, 0) == t[..1] + (Times(t[1..5], Ceil(6.0 * rate)) + (t[2..5] + t[5..]))
  {
    var t := TPTestTable(rate);
    assert OnlyLoop(t, 1, 4);
    OneLoop(t, 1, 4);
    assert t[2..] == t[2..5] + t[5..];
    assert rate * 6.0 == 6.0 * rate;
  }

  lemma ExpandParts(first: seq<Segment>, cycle: seq<Segment>, n: nat, again: seq<Segment>, rest: seq<Segment>)
    ensures Expand(first + (Times(cycle, n) + (again + rest)))
         == Expand(first) + (Times(Expand(cycle), n) + (Expand(again) + Expand(rest)))
  {
    ExpandConcat(first, Times(cycle, n) + (again + rest));
    ExpandConcat(Times(cycle, n), again + rest);
    ExpandConcat(again, rest);
    ExpandTimes(cycle, n);
  }

  /** The whole TPTest schedule. */
  lemma TPTestEmits(rate: real)
    requires rate > 0.0
    ensures Emitted(TPTestTable(rate), START) == TPTestKinds(rate)
  {
    var t := TPTestTable(rate);
    EmitsUnrolling(t);
    TPTestUnroll(rate);
    TPTestTail(t, rate);
    ExpandParts(t[..1], t[1..5], Ceil(6.0 * rate), t[2..5], t[5..]);
  }

  /** Neither condition is met by TPTest: its loop has four rows, and its reads within the loop have count four. */
  lemma TPTestNotAsDeclared(rate: real)
    requires rate > 0.0
    ensures var t := TPTestTable(rate);
      Unroll(t, 0) != DeclaredRows(t, 0) && Expand(t) != DeclaredKinds(t)
  {
    var t := TPTestTable(rate);
    assert OnlyLoop(t, 1, 4);
    OnlyEnd(t, 1, 4);
    assert ClosedLoop(t, 1) && !SingleRow(t, 1);
    LoopsAsDeclaredIff(t);
    CountsAsDeclaredIff(t);
    assert t[2].cnt == 4.0;
  }

  lemma TPTestTail(t: seq<Segment>, rate: real)
    requires t == TPTestTable(rate) && rate > 0.0
    ensures Expand(t[1..5]) == CYCLE && Expand(t[2..5]) == CYCLE[1..]
    ensures Expand(t[..1]) == Times(["r"], Ceil(3.0 * rate))
    ensures Expand(t[5..]) == ["d"] + Times(["r"], Ceil(100.0 * rate))
  {
    assert t[1..5] == [t[1], t[2], t[3], t[4]] && t[2..5] == [t[2], t[3], t[4]];
    assert t[..1] == [t[0]] && t[5..] == [t[5]] + [t[6]];
    ExpandBody(t[1], t[2], t[3], t[4]);
    ExpandReads(rate * 6.0);
    ExpandDelete();
    ExpandReads(rate * 200.0);
    ExpandCons(t[5], [t[6]]);
    assert rate * 6.0 / 2.0 == 3.0 * rate && rate * 200.0 / 2.0 == 100.0 * rate;
  }

  lemma ExpandDelete()
    ensures ExpandRow(Plain("d", 1.0)) == ["d"]
  {
    CeilOfInteger(1);
    assert Times(["d"], 1) == ["d"] + Times(["d"], 0);
  }

  lemma ExpandReads(cnt: real)
    requires cnt > 0.0
    ensures Expand([Plain("r", cnt)]) == Times(["r"], Ceil(cnt / 2.0))
  {
    HalfOfCeil(cnt);
    ExpandCons(Plain("r", cnt), []);
  }

  function Occurrences<T(==)>(s: seq<T>, x: T): nat {
    if s == [] then 0 else (if s[0] == x then 1 else 0) + Occurrences(s[1..], x)
  }

  lemma {:induction false} OccurrencesConcat<T>(a: seq<T>, b: seq<T>, x: T)
    ensures Occurrences(a + b, x) == Occurrences(a, x) + Occurrences(b, x)
  {
    if a == [] {
      assert a + b == b;
    } else {
      OccurrencesConcat(a[1..], b, x);
      assert (a + b)[1..] == a[1..] + b;
    }
  }

  lemma {:induction false} OccurrencesTimes<T>(s: seq<T>, n: nat, x: T)
    ensures Occurrences(Times(s, n), x) == n * Occurrences(s, x) && |Times(s, n)| == n * |s|
  {
    if n > 0 {
      OccurrencesTimes(s, n - 1, x);
      OccurrencesConcat(s, Times(s, n - 1), x);
      assert n * Occurrences(s, x) == (n - 1) * Occurrences(s, x) + Occurrences(s, x);
      assert n * |s| == (n - 1) * |s| + |s|;
    }
  }

  lemma OccurrencesInCycle(x: Kind)
    ensures Occurrences(CYCLE, x) == (if x == "u-u" then 1 else if x == "u-d" then 1 else if x == "r" then 4 else 0)
    ensures Occurrences(CYCLE[1..], x) == (if x == "u-d" then 1 else if x == "r" then 4 else 0)
  {
    var c := CYCLE;
    assert c[1..] == ["r", "r", "u-d", "r", "r"] && c[1..][1..] == ["r", "u-d", "r", "r"];
    assert c[1..][1..][1..] == ["u-d", "r", "r"] && c[1..][1..][1..][1..] == ["r", "r"];
    assert ["r", "r"][1..] == ["r"] && ["r"][1..] == [];
  }

  /** How many operations TPTest emits at a rate: one scale-down more than scale-ups, and one delete. */
  lemma TPTestCounts(rate: real)
    requires rate > 0.0
    ensures var kinds := Emitted(TPTestTable(rate), START);
      && |kinds| == Ceil(3.0 * rate) + 6 * Ceil(6.0 * rate) + Ceil(100.0 * rate) + 6
      && Occurrences(kinds, "u-u") == Ceil(6.0 * rate) && Occurrences(kinds, "u-d") == Ceil(6.0 * rate) + 1
      && Occurrences(kinds, "d") == 1
  {
    TPTestEmits(rate);
    TPTestCount(rate, "u-u");
    TPTestCount(rate, "u-d");
    TPTestCount(rate, "d");
    OccurrencesTimes(["r"], Ceil(3.0 * rate), "r");
    OccurrencesTimes(["r"], Ceil(100.0 * rate), "r");
    OccurrencesTimes(CYCLE, Ceil(6.0 * rate), "r");
  }

  /** At an integer rate that is 139 * rate + 6. */
  lemma TPTestIntegerCount(rate: nat)
    requires rate > 0
    ensures |Emitted(TPTestTable(rate as real), START)| == 139 * rate + 6
  {
    TPTestCounts(rate as real);
    assert 3.0 * rate as real == (3 * rate) as real && 6.0 * rate as real == (6 * rate) as real;
    assert 100.0 * rate as real == (100 * rate) as real;
    CeilOfInteger(3 * rate);
    CeilOfInteger(6 * rate);
    CeilOfInteger(100 * rate);
  }

  lemma OccurrencesInParts<T>(a: seq<T>, b: seq<T>, c: seq<T>, d: seq<T>, e: seq<T>, x: T)
    ensures Occurrences(a + (b + (c + (d + e))), x)
         == Occurrences(a, x) + Occurrences(b, x) + Occurrences(c, x) + Occurrences(d, x) + Occurrences(e, x)
  {
    OccurrencesConcat(a, b + (c + (d + e)), x);
    OccurrencesConcat(b, c + (d + e), x);
    OccurrencesConcat(c, d + e, x);
    OccurrencesConcat(d, e, x);
  }

  lemma OccurrencesOfOne<T>(y: T, x: T)
    ensures Occurrences([y], x) == if x == y then 1 else 0
  {
    assert [y][1..] == [];
  }

  lemma TPTestCount(rate: real, x: Kind)
    requires x != "r" && rate > 0.0
    ensures Occurrences(TPTestKinds(rate), x)
         == Ceil(6.0 * rate) * Occurrences(CYCLE, x) + Occurrences(CYCLE[1..], x) + (if x == "d" then 1 else 0)
    ensures Occurrences(CYCLE, x) == (if x == "u-u" then 1 else if x == "u-d" then 1 else 0)
    ensures Occurrences(CYCLE[1..], x) == (if x == "u-d" then 1 else 0)
  {
    var before, cycles, after := Ceil(3.0 * rate), Ceil(6.0 * rate), Ceil(100.0 * rate);
    OccurrencesInParts(Times(["r"], before), Times(CYCLE, cycles), CYCLE[1..], ["d"], Times(["r"], after), x);
    OccurrencesInCycle(x);
    OccurrencesTimes(["r"], before, x);
    OccurrencesTimes(CYCLE, cycles, x);
    OccurrencesTimes(["r"], after, x);
    OccurrencesOfOne("r", x);
    OccurrencesOfOne("d", x);
  }

  // ---------------------------------------------------------------------------------------------- TimedCRUD

  /** `TimedCRUD._gen_op_kind`, which knows no loops. */
  function TimedGen(table: seq<Segment>, opCount: int, opIndex: nat): (r: (Answer, int, nat))
    requires opIndex <= |table|
    ensures opIndex <= r.2 <= |table|
    decreases |table| - opIndex
  {
    if opIndex == |table| then (IndexError, opCount, opIndex)
    else if opCount as real < table[opIndex].cnt then (Emit(table[opIndex].op), opCount + 1, opIndex)
    else TimedGen(table, 0, opIndex + 1)
  }

  /** The answer comes from the first row from `opIndex` on that has operations left, and counts as one of them. */
  lemma {:induction false} TimedAnswer(table: seq<Segment>, opCount: int, opIndex: nat)
    requires opIndex <= |table|
    ensures var (answer, count, index) := TimedGen(table, opCount, opIndex);
      && answer == (if index < |table| then Emit(table[index].op) else IndexError)
      && (forall k :: opIndex <= k < index ==> table[k].cnt <= (if k == opIndex then opCount else 0) as real)
      && (index < |table| ==> count == (if index == opIndex then opCount else 0) + 1 <= Ceil(table[index].cnt))
    decreases |table| - opIndex
  {
    if opIndex < |table| && opCount as real >= table[opIndex].cnt {
      TimedAnswer(table, 0, opIndex + 1);
    } else if opIndex < |table| {
      CeilIs(table[opIndex].cnt, opCount);
    }
  }

  /** On a table without loops it is the looping generator, field for field. */
  lemma {:induction false} TimedIsSpecialCase(table: seq<Segment>, opCount: int, opIndex: nat, idx: nat, k: real)
    requires opIndex <= |table| && Loopless(table)
    ensures var (answer, count, index) := TimedGen(table, opCount, opIndex);
      Gen(table, Cursor(opCount, opIndex, false, idx, k)) == (answer, Cursor(count, index, false, idx, k))
    decreases |table| - opIndex
  {
    if opIndex < |table| && opCount as real >= table[opIndex].cnt {
      assert !StartsLoop(table, opIndex);
      TimedIsSpecialCase(table, 0, opIndex + 1, idx, k);
    }
  }

  /** So a table without loops is expanded row by row. */
  lemma TimedEmits(table: seq<Segment>)
    requires Loopless(table)
    ensures Emitted(table, START) == Expand(table)
  {
    EmitsUnrolling(table);
    UnrollStraight(table, 0);
  }

  /** What one answer leaves to be emitted, and that it brings the end nearer. */
  lemma TimedNext(table: seq<Segment>, opCount: int, opIndex: nat)
    requires opIndex <= |table| && Loopless(table)
    ensures var (answer, count, index) := TimedGen(table, opCount, opIndex);
      var now, later := Cursor(opCount, opIndex, false, 0, 0.0), Cursor(count + 1, index, false, 0, 0.0);
      && Emitted(table, now) == (if answer.Emit? then [answer.kind] + Emitted(table, later) else [])
      && (answer.Emit? && index == opIndex ==> Todo(table, later) < Todo(table, now))
  {
    TimedIsSpecialCase(table, opCount, opIndex, 0, 0.0);
  }

  ghost predicate Loopless(table: seq<Segment>) { forall j :: !StartsLoop(table, j) }

  class TimedGenerator {
    const table: seq<Segment>
    var opCount: int
    var opIndex: nat

    ghost predicate Valid()
      reads this
    {
      opIndex <= |table| && Loopless(table)
    }

    /** The fields of a looping generator in the same position. */
    function Fields(): Cursor
      reads this
    {
      Cursor(opCount, opIndex, false, 0, 0.0)
    }

    constructor (table: seq<Segment>)
      requires Loopless(table)
      ensures Valid() && this.table == table && Fields() == START
    {
      this.table, opCount, opIndex := table, 0, 0;
    }

    method GenOpKind() returns (answer: Answer)
      requires Valid()
      modifies this
      ensures Valid()
      ensures (answer, opCount, opIndex) == TimedGen(table, old(opCount), old(opIndex))
      decreases |table| - opIndex
    {
      if opIndex >= |table| {
        return IndexError;
      }
      if opCount as real < table[opIndex].cnt {
        opCount := opCount + 1;
        return Emit(table[opIndex].op);
      }
      opCount := 0;
      opIndex := opIndex + 1;
      answer := GenOpKind();
    }

    /** `workload`, run until the table is exhausted. */
    method Workload() returns (kinds: seq<Kind>)
      requires Valid()
      modifies this
      ensures kinds == Emitted(table, old(Fields()))
    {
      kinds := [];
      ghost var rest := Emitted(table, Fields());
      while true
        invariant Valid() && rest == Emitted(table, Fields())
        invariant kinds + rest == Emitted(table, old(Fields()))
        decreases |table| - opIndex, Todo(table, Fields())
      {
        TimedNext(table, opCount, opIndex);
        var answer := GenOpKind();
        if answer.IndexError? {
          return;
        }
        opCount := opCount + 1;
        Assoc(kinds, [answer.kind], rest[1..]);
        rest := rest[1..];
        kinds := kinds + [answer.kind];
      }
    }
  }
}
