/**
 What a row holds after any history of writes, said without replaying them: the first
 terminal status, the last non-null values, the OR of the flags, and the error text written
 since the latest MarkPolled.
 */
module RowHistory {
  import opened Wrappers
  import opened Requests

  // The row left by a history of writes to one request id, oldest first.
  function Replay(ws: seq<Write>): Option<Row> {
    if ws == [] then None else Apply(Replay(ws[..|ws|-1]), ws[|ws|-1])
  }

  // The columns by the value a write gives them.
  function ExternalIdOf(w: Write): Option<string> {
    w.ExternalIdWritten()
  }
  function LastPolledOf(w: Write): Option<Time> {
    w.LastPolledWritten()
  }
  function ErrorTextOf(w: Write): Option<string> {
    w.ErrorTextWritten()
  }

  // r is the last non-null value that the history writes to a column, None when there is none.
  ghost predicate LastNonNull<T>(ws: seq<Write>, column: Write -> Option<T>, r: Option<T>) {
    || (r.None? && forall i :: 0 <= i < |ws| ==> column(ws[i]).None?)
    || exists i :: 0 <= i < |ws| && column(ws[i]).Some? && column(ws[i]) == r &&
                   forall j :: i < j < |ws| ==> column(ws[j]).None?
  }

  ghost predicate FirstTerminalOrLast(ws: seq<Write>, s: Status)
    requires ws != []
  {
    || (s == ws[|ws|-1].StatusWritten() && forall i :: 0 <= i < |ws| ==> !ws[i].StatusWritten().Terminal())
    || exists i :: 0 <= i < |ws| && ws[i].StatusWritten().Terminal() && ws[i].StatusWritten() == s &&
                   forall j :: 0 <= j < i ==> !ws[j].StatusWritten().Terminal()
  }

  // The history's writes from position m on are those since the latest MarkPolled.
  ghost predicate SinceLatestMark(ws: seq<Write>, m: nat) {
    && m <= |ws|
    && (m == 0 || ws[m-1].Mark?)
    && forall j :: m <= j < |ws| ==> ws[j].Upsert?
  }

  ghost predicate ErrorSinceMark(ws: seq<Write>, error: Option<string>) {
    exists m: nat :: SinceLatestMark(ws, m) && LastNonNull(ws[m..], ErrorTextOf, error)
  }

  ghost predicate SomeAutoMonitor(ws: seq<Write>) {
    exists i :: 0 <= i < |ws| && ws[i].AutoMonitorWritten()
  }

  // The closed form of a row.
  ghost predicate ClosedForm(ws: seq<Write>, row: Row)
    requires ws != []
  {
    && FirstTerminalOrLast(ws, row.status)
    && LastNonNull(ws, ExternalIdOf, row.externalId)
    && LastNonNull(ws, LastPolledOf, row.lastPolled)
    && (row.autoMonitor <==> SomeAutoMonitor(ws))
    && ErrorSinceMark(ws, row.errorText)
    && row.updatedAt == ws[|ws|-1].UpdatedAtWritten()
  }

  lemma LastNonNullExtends<T>(ws: seq<Write>, w: Write, column: Write -> Option<T>, r: Option<T>)
    requires LastNonNull(ws, column, r)
    ensures LastNonNull(ws + [w], column, Coalesce(column(w), r))
  {
    var all := ws + [w];
    if column(w).Some? {
      assert all[|ws|] == w;
    } else if !(r.None? && forall i :: 0 <= i < |ws| ==> column(ws[i]).None?) {
      var i :| 0 <= i < |ws| && column(ws[i]).Some? && column(ws[i]) == r &&
               forall j :: i < j < |ws| ==> column(ws[j]).None?;
      assert all[i] == ws[i];
    }
  }

  lemma FirstTerminalOrLastExtends(ws: seq<Write>, w: Write, s: Status)
    requires ws != [] && FirstTerminalOrLast(ws, s)
    ensures FirstTerminalOrLast(ws + [w], Guarded(s, w.StatusWritten()))
  {
    var all := ws + [w];
    assert all[|ws|] == w;
    if i :| 0 <= i < |ws| && ws[i].StatusWritten().Terminal() && ws[i].StatusWritten() == s &&
            forall j :: 0 <= j < i ==> !ws[j].StatusWritten().Terminal() {
      assert all[i] == ws[i];
    }
  }

  lemma AutoMonitorExtends(ws: seq<Write>, w: Write)
    ensures SomeAutoMonitor(ws + [w]) <==> SomeAutoMonitor(ws) || w.AutoMonitorWritten()
  {
    var all := ws + [w];
    assert all[|ws|] == w;
    if i :| 0 <= i < |ws| && ws[i].AutoMonitorWritten() {
      assert all[i] == ws[i];
    }
  }

  lemma ErrorExtends(ws: seq<Write>, w: Write, error: Option<string>)
    requires ErrorSinceMark(ws, error)
    ensures ErrorSinceMark(ws + [w], if w.Mark? then None else Coalesce(w.ErrorTextWritten(), error))
  {
    var all := ws + [w];
    if w.Mark? {
      assert SinceLatestMark(all, |all|);
      assert LastNonNull(all[|all|..], ErrorTextOf, None);
    } else {
      var m: nat :| SinceLatestMark(ws, m) && LastNonNull(ws[m..], ErrorTextOf, error);
      LastNonNullExtends(ws[m..], w, ErrorTextOf, error);
      assert all[m..] == ws[m..] + [w];
      assert SinceLatestMark(all, m);
    }
  }

  lemma ClosedFormExtends(ws: seq<Write>, w: Write, row: Row)
    requires ws != [] && ClosedForm(ws, row)
    ensures ClosedForm(ws + [w], Apply(Some(row), w).value)
  {
    FirstTerminalOrLastExtends(ws, w, row.status);
    LastNonNullExtends(ws, w, ExternalIdOf, row.externalId);
    LastNonNullExtends(ws, w, LastPolledOf, row.lastPolled);
    AutoMonitorExtends(ws, w);
    ErrorExtends(ws, w, row.errorText);
  }

  lemma FirstWriteIsClosedForm(row: Row)
    ensures ClosedForm([Upsert(row)], row)
  {
    var ws := [Upsert(row)];
    assert ws[0] == Upsert(row);
    assert SinceLatestMark(ws, 0) && ws[0..] == ws;
    assert LastNonNull(ws[0..], ErrorTextOf, row.errorText);
  }

  // Every history that creates the row leaves it in closed form.
  lemma {:induction false} ReplayIsClosedForm(ws: seq<Write>)
    requires ws != [] && ws[0].Upsert?
    ensures Replay(ws).Some? && ClosedForm(ws, Replay(ws).value)
  {
    var before, w := ws[..|ws|-1], ws[|ws|-1];
    assert ws == before + [w];
    if before == [] {
      assert ws == [Upsert(w.row)];
      FirstWriteIsClosedForm(w.row);
    } else {
      ReplayIsClosedForm(before);
      ClosedFormExtends(before, w, Replay(before).value);
    }
  }

  // MarkPolled never creates a row: a history without an upsert leaves none, and what comes
  // before the first upsert leaves no trace.
  lemma {:induction false} MarksAloneLeaveNoRow(marks: seq<Write>)
    requires forall i :: 0 <= i < |marks| ==> marks[i].Mark?
    ensures Replay(marks).None?
  {
    if marks != [] {
      MarksAloneLeaveNoRow(marks[..|marks|-1]);
    }
  }

  lemma {:induction false} LeadingMarksAreLost(marks: seq<Write>, ws: seq<Write>)
    requires forall i :: 0 <= i < |marks| ==> marks[i].Mark?
    ensures Replay(marks + ws) == Replay(ws)
  {
    if ws == [] {
      MarksAloneLeaveNoRow(marks);
      assert marks + ws == marks;
    } else {
      LeadingMarksAreLost(marks, ws[..|ws|-1]);
      assert (marks + ws)[..|marks + ws|-1] == marks + ws[..|ws|-1];
    }
  }

  // Upserts form a semigroup that acts on rows: two in a row are one.
  lemma ConsecutiveUpsertsCollapse(stored: Option<Row>, a: Row, b: Row)
    ensures Apply(Apply(stored, Upsert(a)), Upsert(b)) == Apply(stored, Upsert(Merge(a, b)))
  {
  }

  lemma MergeIsAssociative(a: Row, b: Row, c: Row)
    ensures Merge(Merge(a, b), c) == Merge(a, Merge(b, c))
  {
  }

  function MergeAll(rows: seq<Row>): Row
    requires rows != []
  {
    if |rows| == 1 then rows[0] else Merge(rows[0], MergeAll(rows[1..]))
  }

  // Any unbroken stretch of upserts after any history acts as the one upsert that merges them.
  lemma {:induction false} UpsertStretchCollapses(ws: seq<Write>, rows: seq<Row>)
    requires rows != []
    ensures Replay(ws + seq(|rows|, i requires 0 <= i < |rows| => Upsert(rows[i]))) ==
            Apply(Replay(ws), Upsert(MergeAll(rows)))
    decreases |rows|
  {
    var stretch := seq(|rows|, i requires 0 <= i < |rows| => Upsert(rows[i]));
    var first := ws + [Upsert(rows[0])];
    assert first[..|first|-1] == ws;
    assert Replay(first) == Apply(Replay(ws), Upsert(rows[0]));
    if |rows| == 1 {
      assert ws + stretch == first;
    } else {
      var rest := rows[1..];
      UpsertStretchCollapses(first, rest);
      assert ws + stretch == first + seq(|rest|, i requires 0 <= i < |rest| => Upsert(rest[i]));
      ConsecutiveUpsertsCollapse(Replay(ws), rows[0], MergeAll(rest));
    }
  }

  // The whole table after a history of writes to any request ids, interleaved.
  function TableAfter(ops: seq<(string, Write)>): Table {
    if ops == [] then map[]
    else ApplyAt(TableAfter(ops[..|ops|-1]), ops[|ops|-1].0, ops[|ops|-1].1)
  }

  // The part of the history addressed to one id.
  function WritesTo(ops: seq<(string, Write)>, id: string): seq<Write> {
    if ops == [] then []
    else WritesTo(ops[..|ops|-1], id) + if ops[|ops|-1].0 == id then [ops[|ops|-1].1] else []
  }

  // Rows do not influence each other: each is the replay of its own writes.
  lemma {:induction false} RowIsReplayOfItsWrites(ops: seq<(string, Write)>, id: string)
    ensures Lookup(TableAfter(ops), id) == Replay(WritesTo(ops, id))
  {
    if ops != [] {
      var before, op := ops[..|ops|-1], ops[|ops|-1];
      RowIsReplayOfItsWrites(before, id);
      var ws := WritesTo(before, id);
      if op.0 == id {
        assert (ws + [op.1])[..|ws|] == ws;
      } else {
        assert WritesTo(ops, id) == ws;
      }
    }
  }
}
