/**
 A listing that breaks off. ListNonTerminal does not ask why its rows ended, so a tick cannot tell
 a list cut short from a complete one, and reports nothing.
 */
module CutLists {
  import opened Wrappers
  import opened Requests
  import opened Reconciler
  import opened TickProperties
  import opened Fairness
  import S = Store

  // Apart from the listing the tick meets no trouble.
  ghost predicate Untroubled(input: nat -> RowInput) {
    Succeeds(input) && forall i: nat :: !input(i).expired
  }

  ghost function ErrorOf(t: Table, turn: Turn, batch: int, pluginId: string): Option<TickError> {
    var rows := TurnRows(t, turn, batch);
    AfterRows(t, rows, turn.input, pluginId, |rows|).firstErr
  }

  // A listed row with an external id is polled exactly when the list had not broken off before it.
  lemma PolledIffDelivered(t: Table, turn: Turn, batch: int, i: nat)
    requires Untroubled(turn.input) && i < |S.Listing(t, batch)| && S.Listing(t, batch)[i].externalId != ""
    ensures Polls(t, turn, batch, S.Listing(t, batch)[i].requestId) <==> i < turn.delivered
  {
    var all, rows := S.Listing(t, batch), TurnRows(t, turn, batch);
    if i < turn.delivered {
      assert rows[i] == all[i];
      InBudgetMeans(turn.input, i);
      assert AttemptedFor(rows, turn.input, i, all[i].requestId);
    } else {
      assert rows <= all[..i];
    }
  }

  // The tick reports success in any case; it has polled everything it should have exactly when
  // only rows without an external id were cut off.
  lemma NothingMissedIff(t: Table, turn: Turn, batch: int, pluginId: string)
    requires Untroubled(turn.input)
    ensures ErrorOf(t, turn, batch, pluginId).None?
    ensures (forall i: nat :: i < |S.Listing(t, batch)| && S.Listing(t, batch)[i].externalId != "" ==>
               Polls(t, turn, batch, S.Listing(t, batch)[i].requestId)) <==>
            (forall i: nat :: turn.delivered <= i < |S.Listing(t, batch)| ==> S.Listing(t, batch)[i].externalId == "")
  {
    var all, rows := S.Listing(t, batch), TurnRows(t, turn, batch);
    TickReport(t, rows, turn.input, pluginId, |rows|);
    forall i: nat | i < |all| && all[i].externalId != ""
      ensures Polls(t, turn, batch, all[i].requestId) <==> i < turn.delivered
    {
      PolledIffDelivered(t, turn, batch, i);
    }
  }

  // It does happen: one pollable row, a connection that breaks at once. The tick succeeds, polls
  // nothing and changes nothing.
  lemma CutListGoesUnnoticed(batch: int, pluginId: string, input: nat -> RowInput)
    requires Untroubled(input)
    ensures var t: Table := map["r" := Row(Some("m"), Acknowledged, None, None, false, 1)];
            var turn := Turn(0, input);
            && Pollable(t, "r") && "r" in S.ListedIds(t, batch)
            && !Polls(t, turn, batch, "r") && AfterTurn(t, turn, batch, pluginId) == Outcome(t, [])
            && ErrorOf(t, turn, batch, pluginId).None?
  {
    var t: Table := map["r" := Row(Some("m"), Acknowledged, None, None, false, 1)];
    var ids := S.ListedIds(t, batch);
    assert "r" in S.NonTerminalIds(t);
    assert ids != [] ==> ids[0] == "r";
    assert TurnRows(t, Turn(0, input), batch) == [];
  }
}
