/**
 Who gets polled. The tick lists at most L rows, oldest poll first, and skips the listed rows
 that have no external id. Those rows keep their place at the head of the list for ever, so
 they use up slots of every tick.

 A row with an external id is therefore polled within a bound that this module states, exactly
 when fewer than L unsubmitted rows sort ahead of it; with L or more it is never polled again.
 */
module Fairness {
  import opened Arithmetic
  import opened Requests
  import opened Reconciler
  import opened TickProperties
  import S = Store

  predicate Pollable(t: Table, id: string) {
    id in t && !t[id].status.Terminal() && HasExternalId(t[id])
  }

  function PollableAhead(t: Table, r: string): set<string>
    requires r in t
  {
    set id | id in t && Pollable(t, id) && S.Before(t, id, r)
  }

  function UnsubmittedAhead(t: Table, r: string): set<string>
    requires r in t
  {
    set id | id in S.Unsubmitted(t) && S.Before(t, id, r)
  }

  ghost predicate Polls(t: Table, turn: Turn, batch: int, r: string) {
    exists i: nat :: AttemptedFor(TurnRows(t, turn, batch), turn.input, i, r)
  }

  // A tick that goes well: it receives its whole list, its context does not expire, its
  // writes succeed, and its clock is later than every stored last_polled.
  ghost predicate GoesWell(t: Table, turn: Turn, batch: int) {
    && turn.delivered >= S.EffectiveLimit(batch)
    && Succeeds(turn.input)
    && (forall i: nat :: !turn.input(i).expired)
    && (forall i: nat, id :: id in t ==> turn.input(i).polledAt > S.SortTime(t[id]))
  }

  // A run of ticks with nobody else writing: tables[i] is what the i-th tick starts from.
  ghost predicate IsRun(tables: seq<Table>, turns: seq<Turn>, batch: int, pluginId: string) {
    && |tables| == |turns| + 1
    && forall i :: 0 <= i < |turns| ==> tables[i + 1] == AfterTurn(tables[i], turns[i], batch, pluginId).table
  }

  ghost predicate IsGoodRun(tables: seq<Table>, turns: seq<Turn>, batch: int, pluginId: string) {
    && IsRun(tables, turns, batch, pluginId)
    && forall i :: 0 <= i < |turns| ==> GoesWell(tables[i], turns[i], batch)
  }

  // r is polled by one of the first n ticks.
  ghost predicate PolledWithin(tables: seq<Table>, turns: seq<Turn>, batch: int, r: string, n: nat)
    requires |tables| == |turns| + 1
  {
    exists i :: 0 <= i < n && i < |turns| && Polls(tables[i], turns[i], batch, r)
  }

  // ---------- one tick ----------

  lemma UnpolledRowUnchanged(t: Table, turn: Turn, batch: int, pluginId: string, id: string)
    requires id in t && !Polls(t, turn, batch, id)
    ensures var after := AfterTurn(t, turn, batch, pluginId).table; id in after && after[id] == t[id]
  {
    var rows := TurnRows(t, turn, batch);
    UnattemptedRowUnchanged(t, rows, turn.input, pluginId, |rows|, id);
  }

  lemma OnlyPollableRowsArePolled(t: Table, turn: Turn, batch: int, id: string)
    requires Polls(t, turn, batch, id)
    ensures Pollable(t, id)
  {
  }

  lemma PolledRowMovesBack(t: Table, turn: Turn, batch: int, pluginId: string, id: string, r: string)
    requires GoesWell(t, turn, batch) && Polls(t, turn, batch, id) && r in t
    ensures var after := AfterTurn(t, turn, batch, pluginId).table;
            id in after && HasExternalId(after[id]) && S.SortTime(after[id]) > S.SortTime(t[r])
  {
    var rows := TurnRows(t, turn, batch);
    var i: nat :| AttemptedFor(rows, turn.input, i, id);
    AttemptedRowWritten(t, rows, turn.input, pluginId, |rows|, i);
    PollOutcome(t, id, turn.input(i), pluginId);
  }

  // A tick that goes well polls every pollable row it listed.
  lemma ListedIsPolled(t: Table, turn: Turn, batch: int, id: string)
    requires GoesWell(t, turn, batch) && Pollable(t, id) && id in S.ListedIds(t, batch)
    ensures Polls(t, turn, batch, id)
  {
    var rows := TurnRows(t, turn, batch);
    assert rows == S.Listing(t, batch);
    var i :| 0 <= i < |rows| && S.ListedIds(t, batch)[i] == id;
    InBudgetMeans(turn.input, i);
    assert AttemptedFor(rows, turn.input, i, id);
  }

  lemma {:induction false} DistinctCardinality(ids: seq<string>)
    requires forall i, j :: 0 <= i < j < |ids| ==> ids[i] != ids[j]
    ensures |set id | id in ids| == |ids|
  {
    if ids != [] {
      var before, last := ids[..|ids|-1], ids[|ids|-1];
      DistinctCardinality(before);
      assert last !in before;
      assert (set id | id in ids) == (set id | id in before) + {last};
    }
  }

  // If r is not polled, the whole list sorts ahead of r and fills all L slots.
  lemma UnpolledMeansFullListAhead(t: Table, turn: Turn, batch: int, r: string)
    requires GoesWell(t, turn, batch) && Pollable(t, r) && !Polls(t, turn, batch, r)
    ensures var listed := set id | id in S.ListedIds(t, batch);
            |listed| == S.EffectiveLimit(batch) && listed <= PollableAhead(t, r) + UnsubmittedAhead(t, r)
  {
    var ids := S.ListedIds(t, batch);
    if r in ids {
      ListedIsPolled(t, turn, batch, r);
    }
    S.SelectionHasNoDuplicates(t, S.NonTerminalIds(t), S.EffectiveLimit(batch), ids);
    DistinctCardinality(ids);
    forall id | id in ids ensures id in PollableAhead(t, r) + UnsubmittedAhead(t, r) {
      var i :| 0 <= i < |ids| && ids[i] == id;
      assert S.Before(t, ids[i], r);
    }
  }

  // One tick that goes well and does not poll r leaves r and the unsubmitted rows ahead of it
  // in place, and takes at least L minus their number of pollable rows from ahead of r.
  lemma UnpolledGetsCloser(t: Table, turn: Turn, batch: int, pluginId: string, r: string)
    requires GoesWell(t, turn, batch) && Pollable(t, r) && !Polls(t, turn, batch, r)
    ensures var after := AfterTurn(t, turn, batch, pluginId).table;
            && Pollable(after, r) && after[r] == t[r]
            && UnsubmittedAhead(after, r) == UnsubmittedAhead(t, r)
            && |PollableAhead(after, r)| + S.EffectiveLimit(batch) <= |PollableAhead(t, r)| + |UnsubmittedAhead(t, r)|
  {
    var after := AfterTurn(t, turn, batch, pluginId).table;
    var rows := TurnRows(t, turn, batch);
    TickKeepsKeys(t, rows, turn.input, pluginId, |rows|);
    UnpolledRowUnchanged(t, turn, batch, pluginId, r);
    var listed := set id | id in S.ListedIds(t, batch);
    UnpolledMeansFullListAhead(t, turn, batch, r);
    AheadAfterTurn(t, turn, batch, pluginId, r);
    SlotsTaken(listed, PollableAhead(t, r), UnsubmittedAhead(t, r), PollableAhead(after, r));
  }

  lemma SlotsTaken(listed: set<string>, pollable: set<string>, unsubmitted: set<string>, left: set<string>)
    requires listed <= pollable + unsubmitted && left <= pollable - listed
    ensures |left| + |listed| <= |pollable| + |unsubmitted|
  {
    S.SubsetCardinality(listed, listed * pollable + unsubmitted);
    S.SubsetCardinality(left, pollable - listed);
    assert pollable == (pollable - listed) + listed * pollable;
  }

  lemma AheadAfterTurn(t: Table, turn: Turn, batch: int, pluginId: string, r: string)
    requires GoesWell(t, turn, batch) && Pollable(t, r) && !Polls(t, turn, batch, r)
    ensures var after := AfterTurn(t, turn, batch, pluginId).table;
            && after.Keys == t.Keys
            && PollableAhead(after, r) <= PollableAhead(t, r) - (set id | id in S.ListedIds(t, batch))
            && UnsubmittedAhead(after, r) == UnsubmittedAhead(t, r)
  {
    var after := AfterTurn(t, turn, batch, pluginId).table;
    var rows := TurnRows(t, turn, batch);
    TickKeepsKeys(t, rows, turn.input, pluginId, |rows|);
    UnpolledRowUnchanged(t, turn, batch, pluginId, r);
    forall id | id in t
      ensures id in PollableAhead(after, r) ==> id in PollableAhead(t, r) && id !in S.ListedIds(t, batch)
      ensures id in UnsubmittedAhead(after, r) <==> id in UnsubmittedAhead(t, r)
    {
      if Polls(t, turn, batch, id) {
        PolledRowMovesBack(t, turn, batch, pluginId, id, r);
        OnlyPollableRowsArePolled(t, turn, batch, id);
      } else {
        UnpolledRowUnchanged(t, turn, batch, pluginId, id);
        if Pollable(t, id) && id in S.ListedIds(t, batch) {
          ListedIsPolled(t, turn, batch, id);
        }
      }
    }
  }

  // ---------- many ticks ----------

  // n ticks with d places gained in each: n * d.
  function Gained(n: nat, d: int): int {
    if n == 0 then 0 else Gained(n - 1, d) + d
  }

  lemma {:induction false} UnpolledRun(tables: seq<Table>, turns: seq<Turn>, batch: int, pluginId: string, r: string,
                                       n: nat)
    requires IsGoodRun(tables, turns, batch, pluginId) && n <= |turns| && Pollable(tables[0], r)
    requires !PolledWithin(tables, turns, batch, r, n)
    ensures Pollable(tables[n], r) && UnsubmittedAhead(tables[n], r) == UnsubmittedAhead(tables[0], r)
    ensures |PollableAhead(tables[n], r)| + Gained(n, S.EffectiveLimit(batch) - |UnsubmittedAhead(tables[0], r)|)
            <= |PollableAhead(tables[0], r)|
    decreases n
  {
    if n > 0 {
      UnpolledRun(tables, turns, batch, pluginId, r, n - 1);
      assert !Polls(tables[n - 1], turns[n - 1], batch, r);
      UnpolledGetsCloser(tables[n - 1], turns[n - 1], batch, pluginId, r);
    }
  }

  // k / (L - A) + 1, with k pollable and A unsubmitted rows ahead of r.
  function Bound(k: nat, slots: nat, unsubmittedAhead: nat): nat
    requires unsubmittedAhead < slots
  {
    k / (slots - unsubmittedAhead) + 1
  }

  lemma BoundExceeds(k: nat, slots: nat, unsubmittedAhead: nat)
    requires unsubmittedAhead < slots
    ensures Gained(Bound(k, slots, unsubmittedAhead), slots - unsubmittedAhead) > k
    ensures Bound(k, slots, unsubmittedAhead) <= k + 1
  {
    var q := Quotient(k, slots - unsubmittedAhead);
    GainedIsProduct(Bound(k, slots, unsubmittedAhead), slots - unsubmittedAhead);
  }

  lemma {:induction false} GainedIsProduct(n: nat, d: int)
    ensures Gained(n, d) == n * d
  {
    if n > 0 {
      GainedIsProduct(n - 1, d);
      assert n * d == (n - 1) * d + d;
    }
  }

  // No starvation, with the bound.
  lemma PolledWithinBound(tables: seq<Table>, turns: seq<Turn>, batch: int, pluginId: string, r: string)
    requires IsGoodRun(tables, turns, batch, pluginId) && Pollable(tables[0], r)
    requires |UnsubmittedAhead(tables[0], r)| < S.EffectiveLimit(batch)
    requires |turns| >= Bound(|PollableAhead(tables[0], r)|, S.EffectiveLimit(batch), |UnsubmittedAhead(tables[0], r)|)
    ensures PolledWithin(tables, turns, batch, r,
                         Bound(|PollableAhead(tables[0], r)|, S.EffectiveLimit(batch),
                               |UnsubmittedAhead(tables[0], r)|))
  {
    var k, a := |PollableAhead(tables[0], r)|, |UnsubmittedAhead(tables[0], r)|;
    var n := Bound(k, S.EffectiveLimit(batch), a);
    BoundExceeds(k, S.EffectiveLimit(batch), a);
    if !PolledWithin(tables, turns, batch, r, n) {
      UnpolledRun(tables, turns, batch, pluginId, r, n);
    }
  }

  // The bound in terms of all unsubmitted rows, ahead of r or not: the count that RequestStats gives.
  lemma PolledWithinSimpleBound(tables: seq<Table>, turns: seq<Turn>, batch: int, pluginId: string, r: string)
    requires IsGoodRun(tables, turns, batch, pluginId) && Pollable(tables[0], r)
    requires S.StatsOf(tables[0]).unsubmitted < S.EffectiveLimit(batch)
    requires |turns| >= Bound(|PollableAhead(tables[0], r)|, S.EffectiveLimit(batch), S.StatsOf(tables[0]).unsubmitted)
    ensures PolledWithin(tables, turns, batch, r,
                         Bound(|PollableAhead(tables[0], r)|, S.EffectiveLimit(batch),
                               S.StatsOf(tables[0]).unsubmitted))
  {
    S.SubsetCardinality(UnsubmittedAhead(tables[0], r), S.Unsubmitted(tables[0]));
    SmallerDivisor(|PollableAhead(tables[0], r)|, S.EffectiveLimit(batch) - S.StatsOf(tables[0]).unsubmitted,
                   S.EffectiveLimit(batch) - |UnsubmittedAhead(tables[0], r)|);
    PolledWithinBound(tables, turns, batch, pluginId, r);
  }

  lemma QuotientsOrdered(k: nat, q: nat, e: nat, p: nat, d: nat)
    requires q * e <= k < (p + 1) * d && d <= e
    ensures q <= p
  {
    ProductGrows(e, d, q);
    if q > p {
      ProductGrows(q, p + 1, d);
    }
  }

  lemma SmallerDivisor(k: nat, d: nat, e: nat)
    requires 0 < d <= e
    ensures k / e <= k / d
  {
    var p := Quotient(k, d);
    var q := Quotient(k, e);
    QuotientsOrdered(k, q, e, p, d);
  }

  lemma Quotient(k: nat, d: nat) returns (q: nat)
    requires d > 0
    ensures q == k / d && q <= k
    ensures q * d <= k < (q + 1) * d
  {
    q := k / d;
    assert k == q * d + k % d;
    assert (q + 1) * d == q * d + d;
    ProductGrows(d, 1, q);
  }

  // ---------- starvation ----------

  // L unsubmitted rows ahead of r keep it off every list.
  lemma FullHeadKeepsOut(t: Table, batch: int, r: string)
    requires Pollable(t, r) && |UnsubmittedAhead(t, r)| >= S.EffectiveLimit(batch)
    ensures r !in S.ListedIds(t, batch)
  {
    var ids := S.ListedIds(t, batch);
    if r in ids {
      var listed := set id | id in ids;
      forall u | u in UnsubmittedAhead(t, r) ensures u in listed {
        if u !in ids {
          assert S.Before(t, r, u);
          S.BeforeTransitive(t, r, u, r);
          S.BeforeIrreflexive(t, r);
        }
      }
      S.SelectionHasNoDuplicates(t, S.NonTerminalIds(t), S.EffectiveLimit(batch), ids);
      DistinctCardinality(ids);
      S.BeforeIrreflexive(t, r);
      S.SubsetCardinality(UnsubmittedAhead(t, r) + {r}, listed);
    }
  }

  lemma PolledIsListed(t: Table, turn: Turn, batch: int, id: string)
    requires Polls(t, turn, batch, id)
    ensures id in S.ListedIds(t, batch)
  {
    var rows := TurnRows(t, turn, batch);
    var i: nat :| AttemptedFor(rows, turn.input, i, id);
    assert rows[i] == S.Listing(t, batch)[i];
  }

  // Whatever a tick does, it does not poll r, and as many unsubmitted rows stay ahead of it.
  lemma StarvedTurn(t: Table, turn: Turn, batch: int, pluginId: string, r: string)
    requires Pollable(t, r) && |UnsubmittedAhead(t, r)| >= S.EffectiveLimit(batch)
    ensures !Polls(t, turn, batch, r)
    ensures var after := AfterTurn(t, turn, batch, pluginId).table;
            Pollable(after, r) && |UnsubmittedAhead(after, r)| >= S.EffectiveLimit(batch)
  {
    FullHeadKeepsOut(t, batch, r);
    if Polls(t, turn, batch, r) {
      PolledIsListed(t, turn, batch, r);
    }
    UnpolledRowUnchanged(t, turn, batch, pluginId, r);
    var after := AfterTurn(t, turn, batch, pluginId).table;
    forall u | u in UnsubmittedAhead(t, r) ensures u in UnsubmittedAhead(after, r) {
      if Polls(t, turn, batch, u) {
        OnlyPollableRowsArePolled(t, turn, batch, u);
      }
      UnpolledRowUnchanged(t, turn, batch, pluginId, u);
    }
    S.SubsetCardinality(UnsubmittedAhead(t, r), UnsubmittedAhead(after, r));
  }

  lemma {:induction false} StarvedForever(tables: seq<Table>, turns: seq<Turn>, batch: int, pluginId: string, r: string,
                                          n: nat)
    requires IsRun(tables, turns, batch, pluginId) && n <= |turns| && Pollable(tables[0], r)
    requires |UnsubmittedAhead(tables[0], r)| >= S.EffectiveLimit(batch)
    ensures !PolledWithin(tables, turns, batch, r, n)
    ensures Pollable(tables[n], r) && |UnsubmittedAhead(tables[n], r)| >= S.EffectiveLimit(batch)
    decreases n
  {
    if n > 0 {
      StarvedForever(tables, turns, batch, pluginId, r, n - 1);
      StarvedTurn(tables[n - 1], turns[n - 1], batch, pluginId, r);
    }
  }

  // Exactly when: a run of more ticks than there are pollable rows ahead of r polls r if and
  // only if fewer than L unsubmitted rows sort ahead of it.
  lemma PolledIffHeadNotFull(tables: seq<Table>, turns: seq<Turn>, batch: int, pluginId: string, r: string)
    requires IsGoodRun(tables, turns, batch, pluginId) && Pollable(tables[0], r) &&
             |turns| > |PollableAhead(tables[0], r)|
    ensures PolledWithin(tables, turns, batch, r, |turns|) <==>
            |UnsubmittedAhead(tables[0], r)| < S.EffectiveLimit(batch)
  {
    if |UnsubmittedAhead(tables[0], r)| < S.EffectiveLimit(batch) {
      BoundExceeds(|PollableAhead(tables[0], r)|, S.EffectiveLimit(batch), |UnsubmittedAhead(tables[0], r)|);
      PolledWithinBound(tables, turns, batch, pluginId, r);
    } else {
      StarvedForever(tables, turns, batch, pluginId, r, |turns|);
    }
  }

  // ---------- termination of requests ----------

  // Upstream answers every poll with a status that is terminal here.
  ghost predicate AnswersTerminal(turn: Turn) {
    forall i: nat :: turn.input(i).Reply().Snapshot? &&
                     var s := TranslateStatus(turn.input(i).Reply().status); s.Some? && s.value.Terminal()
  }

  lemma {:induction false} TerminalStaysThroughTurns(tables: seq<Table>, turns: seq<Turn>, batch: int, pluginId: string,
                                                     r: string, i: nat, n: nat)
    requires IsRun(tables, turns, batch, pluginId) && i <= n <= |turns|
    requires r in tables[i] && tables[i][r].status.Terminal()
    ensures r in tables[n] && tables[n][r] == tables[i][r]
    decreases n
  {
    if i < n {
      TerminalStaysThroughTurns(tables, turns, batch, pluginId, r, i, n - 1);
      if Polls(tables[n - 1], turns[n - 1], batch, r) {
        OnlyPollableRowsArePolled(tables[n - 1], turns[n - 1], batch, r);
      }
      UnpolledRowUnchanged(tables[n - 1], turns[n - 1], batch, pluginId, r);
    }
  }

  lemma TerminalIsNotPolled(t: Table, turn: Turn, batch: int, r: string)
    requires r in t && t[r].status.Terminal()
    ensures !Polls(t, turn, batch, r)
  {
    if Polls(t, turn, batch, r) {
      OnlyPollableRowsArePolled(t, turn, batch, r);
    }
  }

  // No run of ticks ever polls a row that has ended, whatever it does otherwise.
  lemma EndedIsNeverPolled(tables: seq<Table>, turns: seq<Turn>, batch: int, pluginId: string, r: string, n: nat)
    requires IsRun(tables, turns, batch, pluginId) && n <= |turns|
    requires r in tables[0] && tables[0][r].status.Terminal()
    ensures !PolledWithin(tables, turns, batch, r, n) && r in tables[n] && tables[n][r] == tables[0][r]
  {
    TerminalStaysThroughTurns(tables, turns, batch, pluginId, r, 0, n);
    forall i | 0 <= i < n ensures !Polls(tables[i], turns[i], batch, r) {
      TerminalStaysThroughTurns(tables, turns, batch, pluginId, r, 0, i);
      TerminalIsNotPolled(tables[i], turns[i], batch, r);
    }
  }

  lemma PollEndsRequest(t: Table, turn: Turn, batch: int, pluginId: string, r: string)
    requires Polls(t, turn, batch, r) && Succeeds(turn.input) && AnswersTerminal(turn)
    ensures var after := AfterTurn(t, turn, batch, pluginId).table; r in after && after[r].status.Terminal()
  {
    var rows := TurnRows(t, turn, batch);
    var i: nat :| AttemptedFor(rows, turn.input, i, r);
    AttemptedRowWritten(t, rows, turn.input, pluginId, |rows|, i);
    PollOutcome(t, r, turn.input(i), pluginId);
  }

  // If upstream is done with everything, every pollable request is terminal within its bound.
  lemma TerminalWithinBound(tables: seq<Table>, turns: seq<Turn>, batch: int, pluginId: string, r: string, n: nat)
    requires IsGoodRun(tables, turns, batch, pluginId) && Pollable(tables[0], r)
    requires forall i :: 0 <= i < |turns| ==> AnswersTerminal(turns[i])
    requires |UnsubmittedAhead(tables[0], r)| < S.EffectiveLimit(batch)
    requires Bound(|PollableAhead(tables[0], r)|, S.EffectiveLimit(batch),
                   |UnsubmittedAhead(tables[0], r)|) <= n <= |turns|
    ensures r in tables[n] && tables[n][r].status.Terminal()
  {
    PolledWithinBound(tables, turns, batch, pluginId, r);
    var i: nat :| i < n && i < |turns| && Polls(tables[i], turns[i], batch, r);
    PollEndsRequest(tables[i], turns[i], batch, pluginId, r);
    TerminalStaysThroughTurns(tables, turns, batch, pluginId, r, i + 1, n);
  }
}
