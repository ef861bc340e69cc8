/**
 The crosstab function (contrib/tablefunc/tablefunc.c): a set-returning function that is called
 again and again, and each time folds the next run of source rows with one row name into one tuple.
 */
module Crosstab {
  import opened Wrappers

  // A source row: its row name, never null, and its value.  The category column is not looked at.
  datatype Row = Row(rowid: string, value: Option<string>)

  datatype Tuple = Tuple(rowid: string, values: seq<Option<string>>)

  // ---------------------------------------------------------------- what is promised

  // The end of the run of equal row names that starts at c.
  function RunEnd(rows: seq<Row>, c: nat): (e: nat)
    requires c < |rows|
    ensures c < e <= |rows|
    ensures forall j :: c <= j < e ==> rows[j].rowid == rows[c].rowid
    ensures e < |rows| ==> rows[e].rowid != rows[c].rowid
    decreases |rows| - c
  {
    if c + 1 < |rows| && rows[c + 1].rowid == rows[c].rowid then RunEnd(rows, c + 1) else c + 1
  }

  // The first k values of the run, filled up with nulls.
  function Fill(rows: seq<Row>, k: nat, c: nat): (values: seq<Option<string>>)
    requires c < |rows|
  {
    seq(k, (m: nat) => if c + m < RunEnd(rows, c) then rows[c + m].value else None)
  }

  // One tuple for each run from c on.
  function Expected(rows: seq<Row>, k: nat, c: nat): (ts: seq<Tuple>)
    decreases |rows| - c
  {
    if c >= |rows| then [] else [Tuple(rows[c].rowid, Fill(rows, k, c))] + Expected(rows, k, RunEnd(rows, c))
  }

  // What the calls still have to return, with the counter at c and `last` the row name of the
  // latest tuple: rows of that run that are still there are passed over.  Without a value column
  // every row is.
  function Pending(rows: seq<Row>, k: nat, c: nat, last: Option<string>): (ts: seq<Tuple>) {
    if k == 0 || c >= |rows| then []
    else if last == Some(rows[c].rowid) then Expected(rows, k, RunEnd(rows, c))
    else Expected(rows, k, c)
  }

  // Positions at which a run starts.
  predicate IsStart(rows: seq<Row>, i: nat) {
    i < |rows| && (i == 0 || rows[i - 1].rowid != rows[i].rowid)
  }

  // A tuple is right for the run that starts at s and ends before e.
  predicate TupleOf(rows: seq<Row>, k: nat, s: nat, e: nat, t: Tuple) {
    && s < e <= |rows| && t.rowid == rows[s].rowid && |t.values| == k
    && (forall j :: s <= j < e ==> rows[j].rowid == t.rowid)
    && (forall m :: 0 <= m < k ==> t.values[m] == if s + m < e then rows[s + m].value else None)
  }

  // Tuple j is right for its run, which starts at c or where the run before it ends.
  predicate Link(rows: seq<Row>, k: nat, c: nat, ts: seq<Tuple>, ends: seq<nat>, j: nat) {
    && j < |ts| == |ends| && TupleOf(rows, k, if j == 0 then c else ends[j - 1], ends[j], ts[j])
    && (ends[j] < |rows| ==> IsStart(rows, ends[j]))
  }

  // ends[j] is where the run of tuple j ends and the next run starts.
  predicate Chain(rows: seq<Row>, k: nat, c: nat, ts: seq<Tuple>, ends: seq<nat>) {
    && |ends| == |ts| && (forall j :: 0 <= j < |ts| ==> Link(rows, k, c, ts, ends, j))
    && (if ts == [] then c >= |rows| else ends[|ends| - 1] == |rows|)
  }

  // The tuples cover the source rows from left to right without a gap, one tuple for each maximal
  // run, and each holds the values of its run in order.
  lemma {:induction false} OneTuplePerRun(rows: seq<Row>, k: nat, c: nat) returns (ends: seq<nat>)
    ensures Chain(rows, k, c, Expected(rows, k, c), ends)
    decreases |rows| - c
  {
    if c >= |rows| {
      ends := [];
    } else {
      var e := RunEnd(rows, c);
      var rest := OneTuplePerRun(rows, k, e);
      ends := [e] + rest;
      ChainMore(rows, k, c, e, Expected(rows, k, e), rest);
    }
  }

  lemma {:induction false} ChainMore(rows: seq<Row>, k: nat, c: nat, e: nat, ts: seq<Tuple>, rest: seq<nat>)
    requires c < |rows| && e == RunEnd(rows, c) && Chain(rows, k, e, ts, rest)
    ensures Chain(rows, k, c, [Tuple(rows[c].rowid, Fill(rows, k, c))] + ts, [e] + rest)
  {
    var all, ends := [Tuple(rows[c].rowid, Fill(rows, k, c))] + ts, [e] + rest;
    FirstLink(rows, k, c, all, ends);
    forall j | 0 <= j < |all| ensures Link(rows, k, c, all, ends, j) {
      if j > 0 {
        assert Link(rows, k, e, ts, rest, j - 1);
      }
    }
  }

  lemma {:induction false} FirstLink(rows: seq<Row>, k: nat, c: nat, ts: seq<Tuple>, ends: seq<nat>)
    requires c < |rows| && 0 < |ts| == |ends| && ends[0] == RunEnd(rows, c)
    requires ts[0] == Tuple(rows[c].rowid, Fill(rows, k, c))
    ensures Link(rows, k, c, ts, ends, 0)
  {
    assert rows[ends[0] - 1].rowid == rows[c].rowid;
  }

  lemma {:induction false} SameRunEnd(rows: seq<Row>, c: nat, d: nat)
    requires c < |rows| && c <= d < RunEnd(rows, c)
    ensures RunEnd(rows, d) == RunEnd(rows, c)
    decreases d - c
  {
    if c < d {
      SameRunEnd(rows, c + 1, d);
    }
  }

  // With no value column the source rows are all passed over, so the promise is kept exactly for
  // at least one value column or an empty source.
  lemma {:induction false} PromiseKeptExactly(rows: seq<Row>, k: nat)
    ensures Pending(rows, k, 0, None) == Expected(rows, k, 0) <==> k > 0 || rows == []
  {
    assert rows != [] ==> |Expected(rows, k, 0)| > 0;
  }

  // Where the counter is after the run that starts at c gave a tuple, before it is advanced.
  ghost predicate Moved(rows: seq<Row>, k: nat, c: nat, d: nat)
    requires c < |rows|
  {
    var e := RunEnd(rows, c);
    if e - c >= k then d + 1 == c + k else if e < |rows| then d + 1 == e else d == e
  }

  // The tuple of the run that starts at c is the first of what was pending.
  lemma {:induction false} AfterTuple(rows: seq<Row>, k: nat, c: nat, last: Option<string>, d: nat)
    requires c < |rows| && k > 0 && last != Some(rows[c].rowid) && Moved(rows, k, c, d)
    ensures Pending(rows, k, c, last) ==
            [Tuple(rows[c].rowid, Fill(rows, k, c))] + Pending(rows, k, d + 1, Some(rows[c].rowid))
  {
    var e := RunEnd(rows, c);
    if d + 1 < e {
      SameRunEnd(rows, c, d + 1);
    }
    assert Pending(rows, k, d + 1, Some(rows[c].rowid)) == Expected(rows, k, e);
    assert Pending(rows, k, c, last) == Expected(rows, k, c);
  }

  lemma {:induction false} AfterSkip(rows: seq<Row>, k: nat, c: nat, last: Option<string>)
    requires c < |rows| && (k == 0 || last == Some(rows[c].rowid))
    ensures Pending(rows, k, c + 1, last) == Pending(rows, k, c, last)
  {
    if c + 1 < RunEnd(rows, c) {
      SameRunEnd(rows, c, c + 1);
    }
  }

  // After i turns of the inner loop on the run that starts at c, `values` holds the values taken.
  ghost predicate Taken(rows: seq<Row>, k: nat, c: nat, i: nat, values: seq<Option<string>>) {
    && c < |rows| && |values| == 1 + k && i <= k && c + i <= RunEnd(rows, c)
    && (i > 0 ==> values[0] == Some(rows[c].rowid))
    && forall m :: 1 <= m < 1 + k ==> values[m] == if m <= i then rows[c + m - 1].value else None
  }

  lemma {:induction false} TakeOne(rows: seq<Row>, k: nat, c: nat, i: nat, values: seq<Option<string>>)
    requires Taken(rows, k, c, i, values) && i < k && c + i < RunEnd(rows, c) && values[0] == Some(rows[c].rowid)
    ensures Taken(rows, k, c, i + 1, values[1 + i := rows[c + i].value])
  {
  }

  // The run is at its end, or there is no more room.
  lemma {:induction false} TakenAll(rows: seq<Row>, k: nat, c: nat, i: nat, values: seq<Option<string>>)
    requires Taken(rows, k, c, i, values) && (i == k || c + i == RunEnd(rows, c))
    ensures values[1..] == Fill(rows, k, c)
  {
    assert forall m: nat :: m < k ==> values[1..][m] == values[1 + m];
  }

  // ---------------------------------------------------------------- the code

  class Context {
    const rows: seq<Row>
    const numCategories: nat
    var callCntr: nat
    var lastrowid: Option<string>

    ghost function Rest(): (ts: seq<Tuple>)
      reads this
    {
      Pending(rows, numCategories, callCntr, lastrowid)
    }

    // The first call.
    constructor (rows: seq<Row>, numCategories: nat)
      ensures this.rows == rows && this.numCategories == numCategories
      ensures Rest() == Pending(rows, numCategories, 0, None)
    {
      this.rows := rows;
      this.numCategories := numCategories;
      callCntr := 0;
      lastrowid := None;
    }

    // The inner loop, which moves the counter forward over the rows it takes and one back if it
    // met a row of the next run.
    method Collect(values: array<Option<string>>) returns (allnulls: bool)
      requires callCntr < |rows| && values.Length == 1 + numCategories
      requires forall i :: 0 <= i < values.Length ==> values[i] == None
      modifies this`callCntr, values
      ensures allnulls == (numCategories == 0 || lastrowid == Some(rows[old(callCntr)].rowid))
      ensures values[0] == if numCategories == 0 then None else Some(rows[old(callCntr)].rowid)
      ensures allnulls ==> callCntr == old(callCntr)
      ensures !allnulls ==>
                && values[1..] == Fill(rows, numCategories, old(callCntr))
                && Moved(rows, numCategories, old(callCntr), callCntr)
    {
      allnulls := true;
      ghost var c := callCntr;
      var i := 0;
      while i < numCategories
        invariant i <= numCategories && Taken(rows, numCategories, c, i, values[..])
        invariant callCntr == if 0 < i == numCategories then c + i - 1 else c + i
        invariant allnulls <==> i == 0
        invariant i == 0 ==> values[0] == None
        invariant i > 0 ==> lastrowid != Some(rows[c].rowid)
      {
        if callCntr >= |rows| {
          break;
        }
        var row := rows[callCntr];
        if i == 0 {
          values[0] := Some(row.rowid);
        }
        if Some(row.rowid) == values[0] {
          if lastrowid == Some(row.rowid) {
            break;
          }
          allnulls := false;
          TakeOne(rows, numCategories, c, i, values[..]);
          values[1 + i] := row.value;
          if i < numCategories - 1 {
            callCntr := callCntr + 1;
          }
        } else {
          callCntr := callCntr - 1;
          break;
        }
        i := i + 1;
      }
      if !allnulls {
        TakenAll(rows, numCategories, c, i, values[..]);
        assert values[..][1..] == values[1..];
      }
    }

    // One turn of the outer loop, which gives a tuple or passes over one row.
    method Turn() returns (r: Option<Tuple>)
      requires callCntr < |rows|
      modifies this
      ensures r == None ==> Rest() == old(Rest()) && callCntr == old(callCntr) + 1
      ensures r.Some? ==> old(Rest()) == [r.value] + Rest()
    {
      var values := new Option<string>[1 + numCategories](_ => None);
      ghost var c, last := callCntr, lastrowid;
      var allnulls := Collect(values);
      if values[0] != None {
        lastrowid := values[0];
      }
      callCntr := callCntr + 1;
      if allnulls {
        AfterSkip(rows, numCategories, c, last);
        r := None;
      } else {
        AfterTuple(rows, numCategories, c, last, callCntr - 1);
        r := Some(Tuple(values[0].value, values[1..]));
      }
    }

    // One call of crosstab: the next tuple, or the end.
    method Next() returns (r: Option<Tuple>)
      modifies this
      ensures r == None ==> old(Rest()) == [] && Rest() == []
      ensures r.Some? ==> old(Rest()) == [r.value] + Rest()
    {
      if callCntr >= |rows| {
        return None;
      }
      while true
        invariant callCntr < |rows| && Rest() == old(Rest())
        decreases |rows| - callCntr
      {
        r := Turn();
        if r.Some? || callCntr >= |rows| {
          return;
        }
      }
    }

    // The executor calls until the end; every source is used up after finitely many calls.
    method Drain() returns (ts: seq<Tuple>)
      modifies this
      ensures ts == old(Rest()) && Rest() == []
    {
      ts := [];
      while true
        invariant old(Rest()) == ts + Rest()
        decreases |Rest()|
      {
        var r := Next();
        if r == None {
          return;
        }
        ts := ts + [r.value];
      }
    }
  }

  // A whole query: one tuple for each run of row names, unless there is no value column.
  method Query(rows: seq<Row>, numCategories: nat) returns (ts: seq<Tuple>)
    ensures numCategories == 0 ==> ts == []
    ensures numCategories > 0 ==> exists ends :: Chain(rows, numCategories, 0, ts, ends)
  {
    var context := new Context(rows, numCategories);
    ts := context.Drain();
    ghost var ends := OneTuplePerRun(rows, numCategories, 0);
  }
}
