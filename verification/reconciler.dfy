/** The reconciliation shared by `create_stocks` and `create_prices` in both
    integrations: inventory rows are matched against the catalogue's
    identifier list, each match consuming one occurrence of its identifier
    with `list.remove`, and identifiers no row matched are reported with
    stock 0. */
module Reconciler {
  import opened Inventory

  /** One stock figure: a catalogue identifier and the count reported for it. */
  datatype Level = Level(code: string, count: nat)

  /** What a pass over the inventory yields: the stock figures, or the
      exception that aborted the pass, and the identifiers then left in the
      caller's list. */
  datatype Pass = Pass(levels: Result<seq<Level>>, left: seq<string>)

  function Codes(levels: seq<Level>): (codes: seq<string>)
    ensures |codes| == |levels|
    ensures forall k :: 0 <= k < |levels| ==> codes[k] == levels[k].code
  {
    seq(|levels|, k requires 0 <= k < |levels| => levels[k].code)
  }

  function SetOf(ids: seq<string>): set<string> {
    set x | x in ids
  }

  /** Puts `prefix` in front of the figures of a pass that did not fail. */
  function Prepend(prefix: seq<Level>, p: Pass): Pass {
    Pass(if p.levels.Ok? then Ok(prefix + p.levels.value) else p.levels, p.left)
  }

  /** The first loop of create_stocks: every row whose code is still in `ids`
      yields its bucketed quantity and removes that code from `ids`; a
      quantity int() rejects aborts the pass, leaving `ids` as consumed so far. */
  function Match(rows: seq<Row>, ids: seq<string>): (r: Pass)
    ensures |r.left| <= |ids|
    ensures r.levels.Ok? ==> |r.levels.value| + |r.left| == |ids|
    decreases |rows|
  {
    if rows == [] then Pass(Ok([]), ids)
    else if rows[0].code !in ids then Match(rows[1..], ids)
    else match Quantity(rows[0].quantity)
      case Err(e) => Pass(Err(e), ids)
      case Ok(q) => Prepend([Level(rows[0].code, q)], Match(rows[1..], RemoveFirst(ids, rows[0].code)))
  }

  lemma PrependNothing(p: Pass)
    ensures Prepend([], p) == p
  {
    if p.levels.Ok? { assert [] + p.levels.value == p.levels.value; }
  }

  lemma PrependTwice(prefix: seq<Level>, level: Level, p: Pass)
    ensures Prepend(prefix, Prepend([level], p)) == Prepend(prefix + [level], p)
  {
    if p.levels.Ok? { assert prefix + ([level] + p.levels.value) == (prefix + [level]) + p.levels.value; }
  }

  /** One iteration of the first loop of create_stocks, on row `i`. */
  lemma MatchStep(rows: seq<Row>, i: nat, ids: seq<string>)
    requires i < |rows|
    ensures rows[i].code !in ids ==> Match(rows[i..], ids) == Match(rows[i + 1..], ids)
    ensures rows[i].code in ids && Quantity(rows[i].quantity).Err? ==>
              Match(rows[i..], ids) == Pass(Err(Quantity(rows[i].quantity).error), ids)
    ensures rows[i].code in ids && Quantity(rows[i].quantity).Ok? ==>
              Match(rows[i..], ids) == Prepend([Level(rows[i].code, Quantity(rows[i].quantity).value)],
                                               Match(rows[i + 1..], RemoveFirst(ids, rows[i].code)))
  {
    assert rows[i..][0] == rows[i] && rows[i..][1..] == rows[i + 1..];
  }

  /** The second loop of create_stocks: stock 0 for every identifier left. */
  function ZeroLevels(ids: seq<string>): (levels: seq<Level>)
    ensures Codes(levels) == ids
    ensures forall k :: 0 <= k < |levels| ==> levels[k].count == 0
  {
    seq(|ids|, k requires 0 <= k < |ids| => Level(ids[k], 0))
  }

  /** create_stocks as a whole: the matched figures, then the leftovers at 0. */
  function Reconcile(rows: seq<Row>, ids: seq<string>): (r: Pass)
    ensures r.levels.Ok? ==> |r.levels.value| == |ids|
  {
    var m := Match(rows, ids);
    Pass(if m.levels.Ok? then Ok(m.levels.value + ZeroLevels(m.left)) else m.levels, m.left)
  }

  /** The set-based reading of the reconciliation: a row claims its code when
      the code is still available, and a claimed code is no longer available. */
  function Claimed(rows: seq<Row>, avail: set<string>): (r: seq<Row>)
    ensures |r| <= |rows|
    ensures forall k :: 0 <= k < |r| ==> r[k].code in avail
    decreases |rows|
  {
    if rows == [] then []
    else if rows[0].code in avail then [rows[0]] + Claimed(rows[1..], avail - {rows[0].code})
    else Claimed(rows[1..], avail)
  }

  function RowCodes(rows: seq<Row>): seq<string> {
    seq(|rows|, k requires 0 <= k < |rows| => rows[k].code)
  }

  /** create_prices' test `str(watch.get("Код")) in offer_ids`. */
  function CodeIn(ids: seq<string>): Row -> bool {
    (row: Row) => row.code in ids
  }

  /** The rows create_prices emits a record for, in inventory order. */
  function Priced(rows: seq<Row>, ids: seq<string>): (r: seq<Row>)
    ensures |r| <= |rows|
    ensures forall k :: 0 <= k < |r| ==> r[k].code in ids && r[k] in rows
  {
    Filter(rows, CodeIn(ids))
  }

  // ---------------------------------------------------------------------------
  // Properties of the consumption pass

  /** Every identifier is either reported by a matched row or still in the
      list: matching only moves identifiers, one occurrence per matched row. */
  lemma {:induction false} MatchConserves(rows: seq<Row>, ids: seq<string>)
    requires Match(rows, ids).levels.Ok?
    ensures multiset(Codes(Match(rows, ids).levels.value)) + multiset(Match(rows, ids).left) == multiset(ids)
    decreases |rows|
  {
    if rows != [] && rows[0].code in ids {
      var c := rows[0].code;
      var shorter := RemoveFirst(ids, c);
      var q := MatchHit(rows, ids);
      MatchConserves(rows[1..], shorter);
      ConservesStep(Level(c, q), Match(rows[1..], shorter), ids);
    } else if rows != [] {
      MatchConserves(rows[1..], ids);
    }
  }

  /** Unfolds a pass that did not fail at a row whose code is listed. */
  lemma MatchHit(rows: seq<Row>, ids: seq<string>) returns (q: nat)
    requires rows != [] && rows[0].code in ids && Match(rows, ids).levels.Ok?
    ensures Quantity(rows[0].quantity) == Ok(q)
    ensures Match(rows, ids) == Prepend([Level(rows[0].code, q)], Match(rows[1..], RemoveFirst(ids, rows[0].code)))
  {
    q := Quantity(rows[0].quantity).value;
  }

  /** A matched figure moves its identifier from the list to the figures. */
  lemma ConservesStep(level: Level, rest: Pass, ids: seq<string>)
    requires level.code in ids && rest.levels.Ok?
    requires multiset(Codes(rest.levels.value)) + multiset(rest.left) == multiset(RemoveFirst(ids, level.code))
    ensures multiset(Codes(Prepend([level], rest).levels.value)) + multiset(rest.left) == multiset(ids)
  {
    var c := level.code;
    var codes := Codes(rest.levels.value);
    assert Prepend([level], rest).levels.value == [level] + rest.levels.value;
    assert Codes([level] + rest.levels.value) == [c] + codes;
    assert multiset([c] + codes) == multiset{c} + multiset(codes);
    assert c in multiset(ids);
    assert multiset{c} + (multiset(ids) - multiset{c}) == multiset(ids);
  }

  /** The list left behind is the original with elements deleted and the rest
      in their original order, whether or not the pass failed. */
  lemma {:induction false} MatchLeftIsSubsequence(rows: seq<Row>, ids: seq<string>)
    ensures IsSubsequence(Match(rows, ids).left, ids)
    decreases |rows|
  {
    if rows == [] {
      SubsequenceReflexive(ids);
    } else if rows[0].code !in ids {
      MatchLeftIsSubsequence(rows[1..], ids);
    } else if Quantity(rows[0].quantity).Err? {
      SubsequenceReflexive(ids);
    } else {
      var rest := RemoveFirst(ids, rows[0].code);
      MatchLeftIsSubsequence(rows[1..], rest);
      RemoveFirstIsSubsequence(ids, rows[0].code);
      SubsequenceTransitive(Match(rows[1..], rest).left, rest, ids);
    }
  }

  /** With distinct identifiers, the list-consuming pass is the set-based
      reconciliation: the matched figures are the claiming rows in inventory
      order with their bucketed quantities, and the identifiers left are
      exactly those no row claimed. */
  lemma MatchAsSetDifference(rows: seq<Row>, ids: seq<string>)
    requires Distinct(ids) && Match(rows, ids).levels.Ok?
    ensures var levels := Match(rows, ids).levels.value;
            var claimed := Claimed(rows, SetOf(ids));
            |levels| == |claimed| &&
            forall k :: 0 <= k < |levels| ==>
              levels[k].code == claimed[k].code && Quantity(claimed[k].quantity) == Ok(levels[k].count)
    ensures forall x :: x in Match(rows, ids).left <==> x in ids && x !in RowCodes(Claimed(rows, SetOf(ids)))
  {
    MatchAsClaimed(rows, ids);
    MatchLeftUnclaimed(rows, ids);
  }

  /** Consuming a listed code of a list without repeats removes just that code
      from its set of identifiers. */
  lemma ConsumeDistinct(ids: seq<string>, c: string)
    requires Distinct(ids) && c in ids
    ensures Distinct(RemoveFirst(ids, c))
    ensures SetOf(RemoveFirst(ids, c)) == SetOf(ids) - {c}
  {
    RemoveFirstDistinct(ids, c);
  }

  lemma {:induction false} MatchAsClaimed(rows: seq<Row>, ids: seq<string>)
    requires Distinct(ids) && Match(rows, ids).levels.Ok?
    ensures var levels := Match(rows, ids).levels.value;
            var claimed := Claimed(rows, SetOf(ids));
            |levels| == |claimed| &&
            forall k :: 0 <= k < |levels| ==>
              levels[k].code == claimed[k].code && Quantity(claimed[k].quantity) == Ok(levels[k].count)
    decreases |rows|
  {
    if rows != [] {
      var c := rows[0].code;
      if c !in ids {
        MatchAsClaimed(rows[1..], ids);
      } else {
        var rest := RemoveFirst(ids, c);
        var q := MatchHit(rows, ids);
        ConsumeDistinct(ids, c);
        MatchAsClaimed(rows[1..], rest);
        assert Claimed(rows, SetOf(ids)) == [rows[0]] + Claimed(rows[1..], SetOf(rest));
      }
    }
  }

  lemma {:induction false} MatchLeftUnclaimed(rows: seq<Row>, ids: seq<string>)
    requires Distinct(ids) && Match(rows, ids).levels.Ok?
    ensures forall x :: x in Match(rows, ids).left <==> x in ids && x !in RowCodes(Claimed(rows, SetOf(ids)))
    decreases |rows|
  {
    if rows != [] {
      var c := rows[0].code;
      if c !in ids {
        MatchLeftUnclaimed(rows[1..], ids);
      } else {
        var rest := RemoveFirst(ids, c);
        var q := MatchHit(rows, ids);
        ConsumeDistinct(ids, c);
        MatchLeftUnclaimed(rows[1..], rest);
        var tail := Claimed(rows[1..], SetOf(rest));
        assert Claimed(rows, SetOf(ids)) == [rows[0]] + tail;
        assert RowCodes([rows[0]] + tail) == [c] + RowCodes(tail);
      }
    }
  }

  /** A row whose code is available when the pass starts is claimed: by
      itself, or by an earlier row with the same code. */
  lemma {:induction false} ClaimedCoversRows(rows: seq<Row>, avail: set<string>, i: nat)
    requires i < |rows| && rows[i].code in avail
    ensures rows[i].code in RowCodes(Claimed(rows, avail))
    decreases |rows|
  {
    var c := rows[0].code;
    if c in avail {
      var tail := Claimed(rows[1..], avail - {c});
      assert RowCodes([rows[0]] + tail) == [c] + RowCodes(tail);
      if i > 0 && rows[i].code != c {
        assert rows[1..][i - 1] == rows[i];
        ClaimedCoversRows(rows[1..], avail - {c}, i - 1);
      }
    } else {
      assert i > 0;
      assert rows[1..][i - 1] == rows[i];
      ClaimedCoversRows(rows[1..], avail, i - 1);
    }
  }

  /** No code is claimed twice: once a row claims a code, a later row with the
      same code is skipped. */
  lemma {:induction false} ClaimedDistinct(rows: seq<Row>, avail: set<string>)
    ensures Distinct(RowCodes(Claimed(rows, avail)))
    decreases |rows|
  {
    if rows != [] {
      var c := rows[0].code;
      if c in avail {
        var tail := Claimed(rows[1..], avail - {c});
        ClaimedDistinct(rows[1..], avail - {c});
        assert RowCodes([rows[0]] + tail) == [c] + RowCodes(tail);
        assert forall k :: 0 <= k < |tail| ==> RowCodes(tail)[k] != c;
      } else {
        ClaimedDistinct(rows[1..], avail);
      }
    }
  }

  /** The identifiers create_stocks leaves in a list without repeats match no
      inventory row, so create_prices run on that list emits nothing. */
  lemma NothingPricedAfterConsumption(rows: seq<Row>, ids: seq<string>)
    requires Distinct(ids) && Match(rows, ids).levels.Ok?
    ensures Priced(rows, Match(rows, ids).left) == []
  {
    var left := Match(rows, ids).left;
    MatchAsSetDifference(rows, ids);
    var priced := Priced(rows, left);
    if priced != [] {
      assert CodeIn(left)(priced[0]) && priced[0] in rows;
      var i :| 0 <= i < |rows| && rows[i] == priced[0];
      ClaimedCoversRows(rows, SetOf(ids), i);
      assert false;
    }
  }

  /** A pass fails only on a row whose code is in the catalogue and whose
      quantity int() rejects, and the error names that quantity. */
  lemma {:induction false} MatchFailure(rows: seq<Row>, ids: seq<string>)
    requires Match(rows, ids).levels.Err?
    ensures exists i :: 0 <= i < |rows| && rows[i].code in ids &&
                        Quantity(rows[i].quantity) == Err(Match(rows, ids).levels.error)
    decreases |rows|
  {
    var e := Match(rows, ids).levels.error;
    if rows[0].code !in ids {
      MatchFailure(rows[1..], ids);
      var i :| 0 <= i < |rows[1..]| && rows[1..][i].code in ids && Quantity(rows[1..][i].quantity) == Err(e);
      assert rows[i + 1] == rows[1..][i];
    } else if Quantity(rows[0].quantity).Err? {
      assert Quantity(rows[0].quantity) == Err(e);
    } else {
      var rest := RemoveFirst(ids, rows[0].code);
      MatchFailure(rows[1..], rest);
      var i :| 0 <= i < |rows[1..]| && rows[1..][i].code in rest && Quantity(rows[1..][i].quantity) == Err(e);
      assert rows[i + 1] == rows[1..][i];
      assert rows[i + 1].code in multiset(rest);
    }
  }

  /** When every catalogue row's quantity is ">10" or decimal text, the pass
      does not fail. */
  lemma {:induction false} MatchSucceeds(rows: seq<Row>, ids: seq<string>)
    requires forall i :: 0 <= i < |rows| && rows[i].code in ids ==> Quantity(rows[i].quantity).Ok?
    ensures Match(rows, ids).levels.Ok?
    decreases |rows|
  {
    if rows != [] {
      var rest := if rows[0].code in ids then RemoveFirst(ids, rows[0].code) else ids;
      forall i | 0 <= i < |rows[1..]| && rows[1..][i].code in rest
        ensures Quantity(rows[1..][i].quantity).Ok?
      {
        assert rows[1..][i] == rows[i + 1];
        assert rows[i + 1].code in multiset(rest);
      }
      MatchSucceeds(rows[1..], rest);
    }
  }

  // ---------------------------------------------------------------------------
  // Properties of create_stocks as a whole

  /** Every catalogue identifier appears in the stock figures exactly as often
      as in the catalogue list, and no other code appears. */
  lemma ReconcileCovers(rows: seq<Row>, ids: seq<string>)
    requires Reconcile(rows, ids).levels.Ok?
    ensures multiset(Codes(Reconcile(rows, ids).levels.value)) == multiset(ids)
  {
    var m := Match(rows, ids);
    MatchConserves(rows, ids);
    var zeros := ZeroLevels(m.left);
    assert Codes(m.levels.value + zeros) == Codes(m.levels.value) + Codes(zeros);
  }

  /** With a catalogue list without repeats, each identifier gets exactly one
      stock figure, and only catalogue identifiers get one. */
  lemma ReconcileOnce(rows: seq<Row>, ids: seq<string>)
    requires Distinct(ids) && Reconcile(rows, ids).levels.Ok?
    ensures Distinct(Codes(Reconcile(rows, ids).levels.value))
    ensures forall x :: x in Codes(Reconcile(rows, ids).levels.value) <==> x in ids
  {
    var codes := Codes(Reconcile(rows, ids).levels.value);
    ReconcileCovers(rows, ids);
    DistinctCounts(ids);
    CountsDistinct(codes);
    forall x ensures x in codes <==> x in ids {
      assert x in codes <==> x in multiset(codes);
      assert x in ids <==> x in multiset(ids);
    }
  }

  /** The worked example: codes a1 (quantity ">10") and a2 (quantity "1")
      against the catalogue a1, a2, a3 give a1 at 100, a2 at 0 and a3 at 0,
      leaving a3 in the list. */
  lemma {:induction false} ReconcileExample(a1: string, a2: string, a3: string, p1: string, p2: string)
    requires a1 != a2 && a1 != a3 && a2 != a3
    ensures Reconcile([Row(a1, ">10", p1), Row(a2, "1", p2)], [a1, a2, a3])
         == Pass(Ok([Level(a1, 100), Level(a2, 0), Level(a3, 0)]), [a3])
  {
    ExampleMatch(a1, a2, a3, p1, p2);
    ReconcileOfMatch([Row(a1, ">10", p1), Row(a2, "1", p2)], [a1, a2, a3], [Level(a1, 100), Level(a2, 0)], [a3]);
    ExampleZeroTail(a1, a2, a3);
  }

  lemma ReconcileOfMatch(rows: seq<Row>, ids: seq<string>, matched: seq<Level>, left: seq<string>)
    requires Match(rows, ids) == Pass(Ok(matched), left)
    ensures Reconcile(rows, ids) == Pass(Ok(matched + ZeroLevels(left)), left)
  {
  }

  lemma ExampleZeroTail(a1: string, a2: string, a3: string)
    ensures [Level(a1, 100), Level(a2, 0)] + ZeroLevels([a3]) == [Level(a1, 100), Level(a2, 0), Level(a3, 0)]
  {
    assert ZeroLevels([a3]) == [Level(a3, 0)];
  }

  /** Both rows of the worked example match. */
  lemma {:induction false} ExampleMatch(a1: string, a2: string, a3: string, p1: string, p2: string)
    requires a1 != a2 && a1 != a3 && a2 != a3
    ensures Match([Row(a1, ">10", p1), Row(a2, "1", p2)], [a1, a2, a3]) == Pass(Ok([Level(a1, 100), Level(a2, 0)]), [a3])
  {
    ExampleFirstRow(a1, a2, a3, p1, p2);
    ExampleJoin(a1, a2, a3, p2);
  }

  lemma {:induction false} ExampleJoin(a1: string, a2: string, a3: string, p2: string)
    requires a2 != a3
    ensures Prepend([Level(a1, 100)], Match([Row(a2, "1", p2)], [a2, a3])) == Pass(Ok([Level(a1, 100), Level(a2, 0)]), [a3])
  {
    ExampleSecondRow(a2, a3, p2);
    assert [Level(a1, 100)] + [Level(a2, 0)] == [Level(a1, 100), Level(a2, 0)];
  }

  /** The first row of the worked example consumes a1. */
  lemma {:induction false} ExampleFirstRow(a1: string, a2: string, a3: string, p1: string, p2: string)
    requires a1 != a2 && a1 != a3
    ensures Match([Row(a1, ">10", p1), Row(a2, "1", p2)], [a1, a2, a3])
         == Prepend([Level(a1, 100)], Match([Row(a2, "1", p2)], [a2, a3]))
  {
    var rows := [Row(a1, ">10", p1), Row(a2, "1", p2)];
    assert rows[1..] == [Row(a2, "1", p2)];
    assert FirstIndex([a1, a2, a3], a1) == 0;
    assert RemoveFirst([a1, a2, a3], a1) == [a2, a3];
  }

  /** The second row of the worked example consumes a2. */
  lemma {:induction false} ExampleSecondRow(a2: string, a3: string, p2: string)
    requires a2 != a3
    ensures Match([Row(a2, "1", p2)], [a2, a3]) == Pass(Ok([Level(a2, 0)]), [a3])
  {
    assert [Row(a2, "1", p2)][1..] == [];
    assert FirstIndex([a2, a3], a2) == 0;
    assert RemoveFirst([a2, a3], a2) == [a3];
    assert [Level(a2, 0)] + [] == [Level(a2, 0)];
  }
}
