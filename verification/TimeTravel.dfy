/**
 The `timetravel` row trigger (contrib/spi/timetravel.c): it turns UPDATE and DELETE into
 versioned history kept in two date columns of the table itself.

 The table is a heap of slots; a slot is emptied when its tuple is deleted.  A statement scans
 the slots that exist when it starts, fires the trigger on each selected tuple, and is rolled
 back as a whole when the trigger raises an error.  The reference it is compared with is an
 ordinary table without any history (`Plain`).
 */
module TimeTravel {
  import opened Wrappers

  // NOEND_ABSTIME: the stop date of a version that is still live
  const NOEND: int := 0x7FFFFFFC

  datatype Error = StartNotBeforeStop | DateIsNull | DateChanged
  datatype Result<+T> = Ok(value: T) | Err(error: Error)

  datatype Cell = Null | Datum(v: int)
  type Tuple = seq<Cell>
  type Heap = seq<Option<Tuple>>

  // The shape of the relation: how many columns, and which two hold the dates.
  datatype Layout = Layout(natts: nat, on: nat, off: nat)

  type Columns = c: Layout | c.on < c.natts && c.off < c.natts && c.on != c.off witness Layout(2, 0, 1)

  predicate Fits(c: Columns, t: Tuple) { |t| == c.natts }

  predicate Dated(c: Columns, t: Tuple) { Fits(c, t) && t[c.on].Datum? && t[c.off].Datum? }

  // What the trigger tells the executor: store this tuple, skip the row, or abort.
  datatype Reply = Keep(tuple: Tuple) | Skip | Fail(error: Error)

  // ---------------------------------------------------------------- one row

  // An inserted tuple with its missing dates filled in.
  function Filled(c: Columns, t: Tuple, now: int): (u: Tuple)
    requires Fits(c, t)
    ensures Dated(c, u)
  {
    var u := if t[c.on].Null? then t[c.on := Datum(now)] else t;
    if u[c.off].Null? then u[c.off := Datum(NOEND)] else u
  }

  function Inserted(c: Columns, t: Tuple, now: int): (r: Result<Tuple>)
    requires Fits(c, t)
  {
    var u := Filled(c, t, now);
    if u[c.on].v < u[c.off].v then Ok(u) else Err(StartNotBeforeStop)
  }

  // How one row is versioned: `kept` is what the executor writes back over an updated tuple,
  // `version` is the tuple inserted beside it.
  datatype Versioned = Untouched | Versioned(kept: Tuple, version: Tuple)

  function RowVersioned(c: Columns, x: Tuple, target: Option<Tuple>, now: int): (r: Result<Versioned>)
    requires Fits(c, x) && (target.Some? ==> Fits(c, target.value))
    ensures r.Ok? && r.value.Versioned? ==> Dated(c, r.value.kept) && Dated(c, r.value.version)
  {
    if !Dated(c, x) || (target.Some? && !Dated(c, target.value)) then Err(DateIsNull)
    else if target.Some? && (x[c.on] != target.value[c.on] || x[c.off] != target.value[c.off]) then Err(DateChanged)
    else if x[c.off].v != NOEND then Ok(Untouched)
    else if target.Some? then
      if now < NOEND then Ok(Versioned(x[c.off := Datum(now)], target.value[c.on := Datum(now)]))
      else Err(StartNotBeforeStop)
    else
      if x[c.on].v < now then Ok(Versioned(x, x[c.off := Datum(now)]))
      else Err(StartNotBeforeStop)
  }

  // The whole effect on the heap of updating (to `target`) or deleting the tuple in slot k.
  function RowChanged(c: Columns, heap: Heap, k: nat, target: Option<Tuple>, now: int): (r: Result<Heap>)
    requires k < |heap| && heap[k].Some? && Fits(c, heap[k].value)
    requires target.Some? ==> Fits(c, target.value)
  {
    match RowVersioned(c, heap[k].value, target, now)
    case Err(e) => Err(e)
    case Ok(Untouched) => Ok(heap)
    case Ok(Versioned(kept, version)) =>
      Ok(heap[k := if target.Some? then Some(kept) else None] + [Some(version)])
  }

  // ---------------------------------------------------------------- statements

  // `Update` and `Delete` carry their WHERE clause, `Update` also the tuple its SET list makes.
  datatype Stmt =
    | Insert(tuple: Tuple)
    | Update(sel: Tuple -> bool, set_: Tuple -> Tuple)
    | Delete(sel: Tuple -> bool)

  // The statements of the claim: inserts leave both dates null, SET lists leave the dates alone.
  ghost predicate Ordinary(c: Columns, s: Stmt)
  {
    match s
    case Insert(t) => Fits(c, t) && t[c.on].Null? && t[c.off].Null?
    case Update(_, f) => forall t :: Fits(c, t) ==> Fits(c, f(t)) && f(t)[c.on] == t[c.on] && f(t)[c.off] == t[c.off]
    case Delete(_) => true
  }

  ghost predicate WellFormed(c: Columns, heap: Heap)
  {
    forall k :: 0 <= k < |heap| && heap[k].Some? ==> Fits(c, heap[k].value)
  }

  function Target(s: Stmt, x: Tuple): (r: Option<Tuple>)
    requires !s.Insert?
  {
    if s.Update? then Some(s.set_(x)) else None
  }

  // Slot i of the scan of an UPDATE or DELETE.
  ghost function ScanSlot(c: Columns, heap: Heap, s: Stmt, i: nat, now: int): (r: Result<Heap>)
    requires !s.Insert? && i < |heap| && WellFormed(c, heap)
    requires s.Update? ==> forall t :: Fits(c, t) ==> Fits(c, s.set_(t))
    ensures r.Ok? ==> WellFormed(c, r.value) && |heap| <= |r.value|
  {
    if heap[i].None? || !s.sel(heap[i].value) then Ok(heap)
    else RowChanged(c, heap, i, Target(s, heap[i].value), now)
  }

  // Slots i..n of the scan.
  ghost function Scan(c: Columns, heap: Heap, s: Stmt, i: nat, n: nat, now: int): (r: Result<Heap>)
    requires !s.Insert? && i <= n <= |heap| && WellFormed(c, heap)
    requires s.Update? ==> forall t :: Fits(c, t) ==> Fits(c, s.set_(t))
    ensures r.Ok? ==> WellFormed(c, r.value)
    decreases n - i
  {
    if i == n then Ok(heap)
    else
      match ScanSlot(c, heap, s, i, now)
      case Err(e) => Err(e)
      case Ok(h) => Scan(c, h, s, i + 1, n, now)
  }

  // The reply that goes with an inserted tuple.
  function Answer(r: Result<Tuple>): (reply: Reply) { if r.Ok? then Keep(r.value) else Fail(r.error) }

  // The trigger on INSERT.
  method FireInsert(c: Columns, t: Tuple, now: int) returns (r: Reply)
    requires Fits(c, t)
    ensures r == Answer(Inserted(c, t, now))
  {
    var u := t;
    var changed := 0;
    var oldon := t[c.on];
    if oldon.Null? {
      u := u[c.on := Datum(now)];
      changed := changed + 1;
    }
    var oldoff := t[c.off];
    if oldoff.Null? {
      if (changed == 0 && oldon.v >= NOEND) || (changed > 0 && now >= NOEND) {
        return Fail(StartNotBeforeStop);
      }
      u := u[c.off := Datum(NOEND)];
      changed := changed + 1;
    } else if (changed == 0 && oldon.v >= oldoff.v) || (changed > 0 && now >= oldoff.v) {
      return Fail(StartNotBeforeStop);
    }
    if changed <= 0 {
      return Keep(t);
    }
    return Keep(u);
  }

  // Fetch the column values and nulls and overwrite the date columns.
  method FormVersion(c: Columns, source: Tuple, update: bool, newoff: int) returns (version: Tuple)
    requires Fits(c, source)
    ensures update ==> version == source[c.on := Datum(newoff)][c.off := Datum(NOEND)]
    ensures !update ==> version == source[c.off := Datum(newoff)]
  {
    var cvals, cnulls := new int[c.natts], new bool[c.natts];
    for i := 0 to c.natts
      invariant forall j :: 0 <= j < i ==> cnulls[j] == source[j].Null?
      invariant forall j :: 0 <= j < i ==> source[j].Datum? ==> cvals[j] == source[j].v
    {
      cnulls[i] := source[i].Null?;
      cvals[i] := if source[i].Datum? then source[i].v else 0;
    }
    if update {
      cvals[c.on], cnulls[c.on] := newoff, false;
      cvals[c.off], cnulls[c.off] := NOEND, false;
    } else {
      cvals[c.off], cnulls[c.off] := newoff, false;
    }
    version := seq(c.natts, i requires 0 <= i < c.natts reads cvals, cnulls =>
                   if cnulls[i] then Null else Datum(cvals[i]));
  }

  class Relation {
    const c: Columns
    var rows: Heap

    constructor (c: Columns)
      ensures this.c == c && rows == []
    {
      this.c := c;
      rows := [];
    }

    // INSERT of one tuple: fire the trigger, store what it returns.
    method InsertRow(t: Tuple, now: int) returns (r: Result<()>)
      requires Fits(c, t)
      modifies this
      ensures match Inserted(c, t, now)
              case Ok(u) => r == Ok(()) && rows == old(rows) + [Some(u)]
              case Err(e) => r == Err(e) && rows == old(rows)
    {
      var reply := FireInsert(c, t, now);
      if reply.Fail? {
        return Err(reply.error);
      }
      rows := rows + [Some(reply.tuple)];
      return Ok(());
    }

    // The trigger on UPDATE (with a new tuple) and DELETE (without one); the nested INSERT of
    // the other version goes through the executor and fires the trigger again.
    method FireRow(old_: Tuple, new_: Option<Tuple>, now: int) returns (r: Reply)
      requires Fits(c, old_) && (new_.Some? ==> Fits(c, new_.value))
      modifies this
      ensures match RowVersioned(c, old_, new_, now)
              case Err(e) => r == Fail(e) && rows == old(rows)
              case Ok(Untouched) => r == Skip && rows == old(rows)
              case Ok(Versioned(kept, version)) => r == Keep(kept) && rows == old(rows) + [Some(version)]
    {
      if old_[c.on].Null? || old_[c.off].Null? {
        return Fail(DateIsNull);
      }
      var oldon, oldoff := old_[c.on].v, old_[c.off].v;
      if new_.Some? {
        if new_.value[c.on].Null? || new_.value[c.off].Null? {
          return Fail(DateIsNull);
        }
        if oldon != new_.value[c.on].v || oldoff != new_.value[c.off].v {
          return Fail(DateChanged);
        }
        if new_.value[c.off].v != NOEND {
          return Skip;
        }
      } else if oldoff != NOEND {
        return Skip;
      }
      var newoff := now;

      var version := FormVersion(c, if new_.Some? then new_.value else old_, new_.Some?, newoff);
      assert new_.Some? ==> version == new_.value[c.on := Datum(now)];
      var nested := InsertRow(version, now);
      if nested.Err? {
        return Fail(nested.error);
      }
      if new_.Some? {
        return Keep(old_[c.off := Datum(newoff)]);
      } else {
        return Keep(old_);
      }
    }

    // The executor's part: apply the trigger's answer to slot k.
    method ChangeRow(k: nat, target: Option<Tuple>, now: int) returns (r: Result<()>)
      requires k < |rows| && rows[k].Some?
      requires Fits(c, rows[k].value) && (target.Some? ==> Fits(c, target.value))
      modifies this
      ensures match RowChanged(c, old(rows), k, target, now)
              case Err(e) => r == Err(e) && rows == old(rows)
              case Ok(h) => r == Ok(()) && rows == h
    {
      var reply := FireRow(rows[k].value, target, now);
      match reply {
        case Fail(e) => return Err(e);
        case Skip => return Ok(());
        case Keep(u) =>
          rows := rows[k := if target.Some? then Some(u) else None];
          return Ok(());
      }
    }

    // A whole UPDATE or DELETE; an error in any row rolls the statement back.
    method Execute(s: Stmt, now: int) returns (r: Result<()>)
      requires WellFormed(c, rows) && !s.Insert?
      requires s.Update? ==> forall t :: Fits(c, t) ==> Fits(c, s.set_(t))
      modifies this
      ensures match Scan(c, old(rows), s, 0, |old(rows)|, now)
              case Err(e) => r == Err(e) && rows == old(rows)
              case Ok(h) => r == Ok(()) && rows == h
    {
      var saved := rows;
      var n := |rows|;
      for i := 0 to n
        invariant n <= |rows| && WellFormed(c, rows)
        invariant Scan(c, old(rows), s, 0, n, now) == Scan(c, rows, s, i, n, now)
      {
        if rows[i].Some? && s.sel(rows[i].value) {
          var changed := ChangeRow(i, Target(s, rows[i].value), now);
          if changed.Err? {
            rows := saved;
            return Err(changed.error);
          }
        }
      }
      return Ok(());
    }
  }

  // ---------------------------------------------------------------- history

  // A version as it was while it was live: the closing date is taken back.
  function Reopened(c: Columns, t: Tuple): (u: Tuple)
    requires Dated(c, t)
    ensures Dated(c, u)
  {
    t[c.off := Datum(NOEND)]
  }

  ghost predicate Dates(c: Columns, heap: Heap)
  {
    forall k :: 0 <= k < |heap| && heap[k].Some? ==> Dated(c, heap[k].value)
  }

  // `select ... where start <= t and stop > t`, with the closing dates taken back
  ghost function Visible(c: Columns, slot: Option<Tuple>, t: int): (m: multiset<Tuple>)
  {
    if slot.Some? && Dated(c, slot.value) && slot.value[c.on].v <= t < slot.value[c.off].v
    then multiset{Reopened(c, slot.value)} else multiset{}
  }

  ghost function AsOf(c: Columns, heap: Heap, t: int): (m: multiset<Tuple>)
  {
    if heap == [] then multiset{}
    else AsOf(c, heap[..|heap| - 1], t) + Visible(c, heap[|heap| - 1], t)
  }

  // `select ... where stop = 'infinity'`
  ghost function LiveIn(c: Columns, slot: Option<Tuple>): (m: multiset<Tuple>)
  {
    if slot.Some? && Dated(c, slot.value) && slot.value[c.off].v == NOEND then multiset{slot.value} else multiset{}
  }

  ghost function Live(c: Columns, heap: Heap): (m: multiset<Tuple>)
  {
    if heap == [] then multiset{} else Live(c, heap[..|heap| - 1]) + LiveIn(c, heap[|heap| - 1])
  }

  // Every date in the table was taken from a clock that has reached `clock`.
  ghost predicate History(c: Columns, heap: Heap, clock: int)
  {
    && clock < NOEND
    && Dates(c, heap)
    && forall k :: 0 <= k < |heap| && heap[k].Some? ==>
         var x := heap[k].value;
         x[c.on].v <= clock && (x[c.off].v == NOEND || x[c.on].v <= x[c.off].v <= clock)
  }

  // Slots that hold a closed version still hold it.
  ghost predicate ClosedKept(c: Columns, before: Heap, after: Heap)
  {
    && |before| <= |after|
    && forall k :: 0 <= k < |before| && before[k].Some? && Dated(c, before[k].value) && before[k].value[c.off].v != NOEND ==> after[k] == before[k]
  }

  // ---------------------------------------------------------------- the reference: a plain table

  // Replace every element x of m by the elements of g(x).
  ghost function Each(m: multiset<Tuple>, g: Tuple -> multiset<Tuple>): (r: multiset<Tuple>)
    decreases |m|
  {
    if m == multiset{} then multiset{}
    else var x :| x in m; Each(m - multiset{x}, g) + g(x)
  }

  lemma {:induction false} TakeOut(m: multiset<Tuple>, x: Tuple, y: Tuple)
    requires y in m
    ensures (m + multiset{x}) - multiset{y} == (m - multiset{y}) + multiset{x} && m - multiset{y} + multiset{y} == m
    ensures |m - multiset{y}| < |m|
  {
  }

  lemma {:induction false} EachAdd(m: multiset<Tuple>, x: Tuple, g: Tuple -> multiset<Tuple>)
    ensures Each(m + multiset{x}, g) == Each(m, g) + g(x)
    decreases |m|
  {
    var n := m + multiset{x};
    var y :| y in n && Each(n, g) == Each(n - multiset{y}, g) + g(y);
    if y != x {
      var rest := m - multiset{y};
      TakeOut(m, x, y);
      EachAdd(rest, x, g);
      EachAdd(rest, y, g);
      SwapAdds(Each(rest, g), g(x), g(y));
    } else {
      PutBack(m, x);
    }
  }

  lemma {:induction false} SwapAdds(a: multiset<Tuple>, b: multiset<Tuple>, c: multiset<Tuple>)
    ensures (a + b) + c == (a + c) + b
  {
  }

  lemma {:induction false} PutBack(m: multiset<Tuple>, x: Tuple)
    ensures (m + multiset{x}) - multiset{x} == m
  {
  }

  // What an UPDATE or DELETE makes of one row of the plain table; `on` is its last-change column.
  function PlainRow(c: Columns, s: Stmt, now: int): (g: Tuple -> multiset<Tuple>)
    requires !s.Insert?
  {
    x => if !s.sel(x) then multiset{x}
         else if s.Delete? then multiset{}
         else if c.on < |s.set_(x)| then multiset{s.set_(x)[c.on := Datum(now)]}
         else multiset{}
  }

  // A row created in the current tick cannot be deleted: its closed version would be empty.
  ghost predicate TooYoung(c: Columns, live: multiset<Tuple>, s: Stmt, now: int)
  {
    s.Delete? && exists x: Tuple :: x in live && s.sel(x) && Dated(c, x) && x[c.on].v >= now
  }

  ghost function Plain(c: Columns, live: multiset<Tuple>, s: Stmt, now: int): (r: multiset<Tuple>)
    requires Ordinary(c, s)
  {
    if s.Insert? then live + multiset{Filled(c, s.tuple, now)}
    else if TooYoung(c, live, s, now) then live
    else Each(live, PlainRow(c, s, now))
  }

  // ---------------------------------------------------------------- runs

  datatype Step = Step(stmt: Stmt, now: int)

  ghost predicate Chronological(c: Columns, run: seq<Step>)
  {
    && (forall i :: 0 <= i < |run| ==> Ordinary(c, run[i].stmt) && run[i].now < NOEND)
    && forall i, j :: 0 <= i < j < |run| ==> run[i].now <= run[j].now
  }

  // The heap after one statement; a failed statement leaves it alone.
  ghost function After(c: Columns, heap: Heap, s: Stmt, now: int): (h: Heap)
    requires Ordinary(c, s) && Dates(c, heap)
  {
    if s.Insert? then
      (match Inserted(c, s.tuple, now) case Ok(u) => heap + [Some(u)] case Err(_) => heap)
    else
      (match Scan(c, heap, s, 0, |heap|, now) case Ok(h) => h case Err(_) => heap)
  }

  ghost function Run(c: Columns, run: seq<Step>): (h: Heap)
    requires Chronological(c, run)
    ensures run != [] ==> History(c, h, run[|run| - 1].now)
    ensures run == [] ==> h == []
  {
    if run == [] then []
    else
      var s := run[|run| - 1];
      var h := Run(c, run[..|run| - 1]);
      StatementEffect(c, h, s.stmt, s.now);
      After(c, h, s.stmt, s.now)
  }

  // The plain table after the same run.
  ghost function PlainRun(c: Columns, run: seq<Step>): (live: multiset<Tuple>)
    requires Chronological(c, run)
  {
    if run == [] then multiset{}
    else Plain(c, PlainRun(c, run[..|run| - 1]), run[|run| - 1].stmt, run[|run| - 1].now)
  }

  // The part of a run that has happened by the end of instant t.
  ghost function Until(run: seq<Step>, t: int): (r: seq<Step>)
    ensures r <= run
  {
    if run == [] || run[|run| - 1].now <= t then run else Until(run[..|run| - 1], t)
  }

  // ---------------------------------------------------------------- proofs

  lemma {:induction false} LiveConcat(c: Columns, a: Heap, b: Heap)
    ensures Live(c, a + b) == Live(c, a) + Live(c, b)
  {
    if b == [] {
      assert a + b == a;
    } else {
      assert (a + b)[..|a + b| - 1] == a + b[..|b| - 1];
      LiveConcat(c, a, b[..|b| - 1]);
    }
  }

  lemma {:induction false} AsOfConcat(c: Columns, a: Heap, b: Heap, t: int)
    ensures AsOf(c, a + b, t) == AsOf(c, a, t) + AsOf(c, b, t)
  {
    if b == [] {
      assert a + b == a;
    } else {
      assert (a + b)[..|a + b| - 1] == a + b[..|b| - 1];
      AsOfConcat(c, a, b[..|b| - 1], t);
    }
  }

  lemma {:induction false} AsOfSet(c: Columns, heap: Heap, k: nat, slot: Option<Tuple>, t: int)
    requires k < |heap|
    ensures AsOf(c, heap[k := slot], t) + Visible(c, heap[k], t) == AsOf(c, heap, t) + Visible(c, slot, t)
  {
    var a, b := heap[..k], heap[k + 1..];
    assert heap == a + [heap[k]] + b;
    assert heap[k := slot] == a + [slot] + b;
    SplitLast(c, a, heap[k], t);
    SplitLast(c, a, slot, t);
    AsOfConcat(c, a + [heap[k]], b, t);
    AsOfConcat(c, a + [slot], b, t);
  }

  lemma {:induction false} SplitLast(c: Columns, heap: Heap, slot: Option<Tuple>, t: int)
    ensures AsOf(c, heap + [slot], t) == AsOf(c, heap, t) + Visible(c, slot, t)
  {
    assert (heap + [slot])[..|heap|] == heap;
  }

  lemma {:induction false} LiveLast(c: Columns, heap: Heap, slot: Option<Tuple>)
    ensures Live(c, heap + [slot]) == Live(c, heap) + LiveIn(c, slot)
  {
    assert (heap + [slot])[..|heap|] == heap;
  }

  // The slot written back and the version beside it: before `now` they show the old tuple.
  lemma {:induction false} VersionedPast(c: Columns, x: Tuple, target: Option<Tuple>, now: int, t: int)
    requires Dated(c, x) && (target.Some? ==> Fits(c, target.value)) && t < now < NOEND
    requires var r := RowVersioned(c, x, target, now); r.Ok? && r.value.Versioned?
    ensures var v := RowVersioned(c, x, target, now).value;
            Visible(c, if target.Some? then Some(v.kept) else None, t) + Visible(c, Some(v.version), t) == Visible(c, Some(x), t)
  {
    assert x[c.off := Datum(now)][c.off := Datum(NOEND)] == x == Reopened(c, x);
  }

  lemma {:induction false} RowKeepsHistory(c: Columns, heap: Heap, k: nat, target: Option<Tuple>, now: int)
    requires History(c, heap, now)
    requires k < |heap| && heap[k].Some? && (target.Some? ==> Fits(c, target.value))
    requires RowChanged(c, heap, k, target, now).Ok?
    ensures var h := RowChanged(c, heap, k, target, now).value; History(c, h, now) && ClosedKept(c, heap, h)
  {
  }

  // Versioning a row changes nothing that was visible before `now`.
  lemma {:induction false} RowKeepsPast(c: Columns, heap: Heap, k: nat, target: Option<Tuple>, now: int, t: int)
    requires History(c, heap, now) && t < now
    requires k < |heap| && heap[k].Some? && (target.Some? ==> Fits(c, target.value))
    requires RowChanged(c, heap, k, target, now).Ok?
    ensures var h := RowChanged(c, heap, k, target, now).value; AsOf(c, h, t) == AsOf(c, heap, t)
  {
    var x := heap[k].value;
    var v := RowVersioned(c, x, target, now).value;
    if v.Versioned? {
      var slot := if target.Some? then Some(v.kept) else None;
      VersionedPast(c, x, target, now, t);
      AsOfSet(c, heap, k, slot, t);
      SplitLast(c, heap[k := slot], Some(v.version), t);
      Cancel(AsOf(c, heap[k := slot], t), Visible(c, heap[k], t), AsOf(c, heap, t), Visible(c, slot, t), Visible(c, Some(v.version), t));
    }
  }

  lemma {:induction false} Cancel(a: multiset<Tuple>, old_: multiset<Tuple>, b: multiset<Tuple>, slot: multiset<Tuple>, v: multiset<Tuple>)
    requires a + old_ == b + slot && slot + v == old_
    ensures a + v == b
  {
    assert (a + v) + slot == b + slot;
    assert (a + v) + slot - slot == a + v && b + slot - slot == b;
  }

  // One selected tuple: it fails exactly when the plain table refuses the row, and otherwise the
  // live tuples it leaves behind are those the plain table puts in its place.
  lemma {:induction false} TupleLive(c: Columns, x: Tuple, s: Stmt, now: int)
    requires Ordinary(c, s) && !s.Insert? && Dated(c, x) && now < NOEND && s.sel(x)
    ensures var r := RowVersioned(c, x, Target(s, x), now);
            && (r.Err? <==> TooYoung(c, LiveIn(c, Some(x)), s, now))
            && (r.Ok? ==> (r.value.Versioned? <==> x[c.off].v == NOEND))
            && (r.Ok? && r.value.Versioned? ==>
                  LiveIn(c, if s.Update? then Some(r.value.kept) else None) + LiveIn(c, Some(r.value.version))
                  == PlainRow(c, s, now)(x))
  {
    if s.Delete? && x[c.off].v == NOEND {
      assert x in LiveIn(c, Some(x));
    }
  }

  lemma {:induction false} RowSlices(heap: Heap, slot: Option<Tuple>, v: Option<Tuple>, i: nat, n: nat)
    requires i < n <= |heap|
    ensures var h := heap[i := slot] + [v];
            h[i + 1..n] == heap[i + 1..n] && h[..i + 1] == heap[..i] + [slot] && h[n..] == heap[n..] + [v]
  {
  }

  // The live tuples of the slots already scanned and of those appended, after changing slot i.
  lemma {:induction false} RowLive(c: Columns, heap: Heap, slot: Option<Tuple>, v: Option<Tuple>, i: nat, n: nat)
    requires i < n <= |heap|
    ensures var h := heap[i := slot] + [v];
            && h[i + 1..n] == heap[i + 1..n]
            && Live(c, h[..i + 1]) == Live(c, heap[..i]) + LiveIn(c, slot)
            && Live(c, h[n..]) == Live(c, heap[n..]) + LiveIn(c, v)
  {
    RowSlices(heap, slot, v, i, n);
    LiveLast(c, heap[..i], slot);
    LiveLast(c, heap[n..], v);
  }

  lemma {:induction false} LiveFirst(c: Columns, heap: Heap, i: nat, n: nat)
    requires i < n <= |heap|
    ensures Live(c, heap[i..n]) == LiveIn(c, heap[i]) + Live(c, heap[i + 1..n])
  {
    assert heap[i..n] == [heap[i]] + heap[i + 1..n];
    LiveConcat(c, [heap[i]], heap[i + 1..n]);
    assert [] + [heap[i]] == [heap[i]];
    LiveLast(c, [], heap[i]);
  }

  lemma {:induction false} TooYoungSplits(c: Columns, a: multiset<Tuple>, b: multiset<Tuple>, s: Stmt, now: int)
    ensures TooYoung(c, a + b, s, now) <==> TooYoung(c, a, s, now) || TooYoung(c, b, s, now)
  {
  }

  // What slot i contributes to the plain table after the statement.
  ghost function PlainSlot(c: Columns, slot: Option<Tuple>, s: Stmt, now: int): (m: multiset<Tuple>)
    requires !s.Insert?
  {
    if LiveIn(c, slot) == multiset{} then multiset{} else PlainRow(c, s, now)(slot.value)
  }

  lemma {:induction false} EachFirst(c: Columns, slot: Option<Tuple>, rest: multiset<Tuple>, s: Stmt, now: int)
    requires !s.Insert?
    ensures Each(LiveIn(c, slot) + rest, PlainRow(c, s, now)) == PlainSlot(c, slot, s, now) + Each(rest, PlainRow(c, s, now))
    ensures slot.Some? && !s.sel(slot.value) ==> PlainSlot(c, slot, s, now) == LiveIn(c, slot)
  {
    if LiveIn(c, slot) != multiset{} {
      assert LiveIn(c, slot) + rest == rest + multiset{slot.value};
      EachAdd(rest, slot.value, PlainRow(c, s, now));
    } else {
      assert LiveIn(c, slot) + rest == rest;
    }
  }

  lemma {:induction false} Interpose(a1: multiset<Tuple>, b1: multiset<Tuple>, e: multiset<Tuple>, a: multiset<Tuple>, b: multiset<Tuple>, p: multiset<Tuple>)
    requires a1 + b1 == a + b + p
    ensures a1 + e + b1 == a + (p + e) + b
  {
    assert a1 + e + b1 == (a1 + b1) + e;
    assert (a + b + p) + e == a + (p + e) + b;
  }

  lemma {:induction false} Regroup(a: multiset<Tuple>, p: multiset<Tuple>, b: multiset<Tuple>, q: multiset<Tuple>)
    ensures (a + p) + (b + q) == a + b + (p + q)
  {
  }

  // From heap to h the live tuples in the slots up to i and in those from n on gain m, in place of
  // slot i; the slots between are as they were.
  ghost predicate SlotGives(c: Columns, heap: Heap, h: Heap, i: nat, n: nat, m: multiset<Tuple>) {
    && i < n <= |heap| <= |h| && h[i + 1..n] == heap[i + 1..n]
    && Live(c, h[..i + 1]) + Live(c, h[n..]) == Live(c, heap[..i]) + Live(c, heap[n..]) + m
  }

  // The live tuples in the slots scanned so far and in those appended, after slot i.
  lemma {:induction false} SlotLive(c: Columns, heap: Heap, s: Stmt, i: nat, n: nat, now: int)
    requires Ordinary(c, s) && !s.Insert? && i < n <= |heap| && History(c, heap, now)
    requires ScanSlot(c, heap, s, i, now).Ok?
    ensures SlotGives(c, heap, ScanSlot(c, heap, s, i, now).value, i, n, PlainSlot(c, heap[i], s, now))
  {
    if heap[i].Some? && s.sel(heap[i].value) {
      ChosenLive(c, heap, s, heap[i].value, i, n, now);
    } else {
      UnchangedLive(c, heap, i, n);
      UnselectedLive(c, heap[i], s, now);
    }
  }

  lemma {:induction false} ChosenLive(c: Columns, heap: Heap, s: Stmt, x: Tuple, i: nat, n: nat, now: int)
    requires Ordinary(c, s) && !s.Insert? && i < n <= |heap| && heap[i] == Some(x) && s.sel(x) && Dated(c, x) && now < NOEND
    requires RowChanged(c, heap, i, Target(s, x), now).Ok?
    ensures SlotGives(c, heap, RowChanged(c, heap, i, Target(s, x), now).value, i, n, PlainSlot(c, Some(x), s, now))
  {
    TupleLive(c, x, s, now);
    var v := RowVersioned(c, x, Target(s, x), now).value;
    if v.Versioned? {
      ChangedLive(c, heap, if s.Update? then Some(v.kept) else None, Some(v.version), i, n);
    } else {
      UnchangedLive(c, heap, i, n);
    }
  }

  lemma {:induction false} UnchangedLive(c: Columns, heap: Heap, i: nat, n: nat)
    requires i < n <= |heap|
    ensures SlotGives(c, heap, heap, i, n, LiveIn(c, heap[i]))
  {
    assert heap[..i + 1] == heap[..i] + [heap[i]];
    LiveLast(c, heap[..i], heap[i]);
    SwapAdds(Live(c, heap[..i]), LiveIn(c, heap[i]), Live(c, heap[n..]));
  }

  lemma {:induction false} UnselectedLive(c: Columns, slot: Option<Tuple>, s: Stmt, now: int)
    requires !s.Insert? && (slot.Some? ==> !s.sel(slot.value))
    ensures PlainSlot(c, slot, s, now) == LiveIn(c, slot)
  {
  }

  lemma {:induction false} ChangedLive(c: Columns, heap: Heap, slot: Option<Tuple>, v: Option<Tuple>, i: nat, n: nat)
    requires i < n <= |heap|
    ensures SlotGives(c, heap, heap[i := slot] + [v], i, n, LiveIn(c, slot) + LiveIn(c, v))
  {
    RowLive(c, heap, slot, v, i, n);
    Regroup(Live(c, heap[..i]), LiveIn(c, slot), Live(c, heap[n..]), LiveIn(c, v));
  }

  lemma {:induction false} SlotFails(c: Columns, heap: Heap, s: Stmt, i: nat, now: int)
    requires Ordinary(c, s) && !s.Insert? && i < |heap| && History(c, heap, now)
    ensures ScanSlot(c, heap, s, i, now).Err? <==> TooYoung(c, LiveIn(c, heap[i]), s, now)
  {
    if heap[i].Some? && s.sel(heap[i].value) { TupleLive(c, heap[i].value, s, now); }
  }

  lemma {:induction false} SlotKeepsHistory(c: Columns, heap: Heap, s: Stmt, i: nat, now: int)
    requires Ordinary(c, s) && !s.Insert? && i < |heap| && History(c, heap, now)
    requires ScanSlot(c, heap, s, i, now).Ok?
    ensures PastKept(c, heap, ScanSlot(c, heap, s, i, now).value, now)
  {
    if heap[i].Some? && s.sel(heap[i].value) {
      RowKeeps(c, heap, i, Target(s, heap[i].value), now);
    } else {
      NothingLost(c, heap, now);
    }
  }

  lemma {:induction false} NothingLost(c: Columns, heap: Heap, now: int)
    requires History(c, heap, now)
    ensures PastKept(c, heap, heap, now)
  {
  }

  lemma {:induction false} RowKeeps(c: Columns, heap: Heap, i: nat, target: Option<Tuple>, now: int)
    requires History(c, heap, now) && i < |heap| && heap[i].Some?
    requires target.Some? ==> Fits(c, target.value)
    requires RowChanged(c, heap, i, target, now).Ok?
    ensures PastKept(c, heap, RowChanged(c, heap, i, target, now).value, now)
  {
    RowKeepsHistory(c, heap, i, target, now);
    forall t | t < now ensures AsOf(c, RowChanged(c, heap, i, target, now).value, t) == AsOf(c, heap, t) {
      RowKeepsPast(c, heap, i, target, now, t);
    }
  }

  // h is a history in which the closed versions of heap, and all instants before now, are kept.
  ghost predicate PastKept(c: Columns, heap: Heap, h: Heap, now: int) {
    && History(c, h, now) && ClosedKept(c, heap, h)
    && forall t :: t < now ==> AsOf(c, h, t) == AsOf(c, heap, t)
  }

  lemma {:induction false} PastKeptTwice(c: Columns, a: Heap, b: Heap, d: Heap, now: int)
    requires PastKept(c, a, b, now) && PastKept(c, b, d, now)
    ensures PastKept(c, a, d, now)
  {
  }

  lemma {:induction false} ScanKeepsPast(c: Columns, heap: Heap, s: Stmt, i: nat, n: nat, now: int)
    requires Ordinary(c, s) && !s.Insert? && i <= n <= |heap| && History(c, heap, now)
    requires Scan(c, heap, s, i, n, now).Ok?
    ensures PastKept(c, heap, Scan(c, heap, s, i, n, now).value, now)
    decreases n - i
  {
    if i < n {
      var h := ScanSlot(c, heap, s, i, now).value;
      SlotKeepsHistory(c, heap, s, i, now);
      ScanKeepsPast(c, h, s, i + 1, n, now);
      PastKeptTwice(c, heap, h, Scan(c, h, s, i + 1, n, now).value, now);
    }
  }

  lemma {:induction false} ScanFails(c: Columns, heap: Heap, s: Stmt, i: nat, n: nat, now: int)
    requires Ordinary(c, s) && !s.Insert? && i <= n <= |heap| && History(c, heap, now)
    ensures Scan(c, heap, s, i, n, now).Err? <==> TooYoung(c, Live(c, heap[i..n]), s, now)
    decreases n - i
  {
    if i < n {
      LiveFirst(c, heap, i, n);
      TooYoungSplits(c, LiveIn(c, heap[i]), Live(c, heap[i + 1..n]), s, now);
      SlotFails(c, heap, s, i, now);
      var r := ScanSlot(c, heap, s, i, now);
      if r.Ok? {
        SlotKeepsHistory(c, heap, s, i, now);
        SlotLive(c, heap, s, i, n, now);
        ScanFails(c, r.value, s, i + 1, n, now);
      }
    }
  }

  lemma {:induction false} ScanLive(c: Columns, heap: Heap, s: Stmt, i: nat, n: nat, now: int)
    requires Ordinary(c, s) && !s.Insert? && i <= n <= |heap| && History(c, heap, now)
    requires Scan(c, heap, s, i, n, now).Ok?
    ensures Live(c, Scan(c, heap, s, i, n, now).value) ==
            Live(c, heap[..i]) + Each(Live(c, heap[i..n]), PlainRow(c, s, now)) + Live(c, heap[n..])
    decreases n - i
  {
    if i == n {
      assert heap[..n] + heap[n..] == heap;
      LiveConcat(c, heap[..n], heap[n..]);
    } else {
      var h := ScanSlot(c, heap, s, i, now).value;
      SlotKeepsHistory(c, heap, s, i, now);
      SlotLive(c, heap, s, i, n, now);
      ScanLive(c, h, s, i + 1, n, now);
      var rest := Live(c, heap[i + 1..n]);
      Interpose(Live(c, h[..i + 1]), Live(c, h[n..]), Each(rest, PlainRow(c, s, now)),
                Live(c, heap[..i]), Live(c, heap[n..]), PlainSlot(c, heap[i], s, now));
      LiveFirst(c, heap, i, n);
      EachFirst(c, heap[i], rest, s, now);
    }
  }

  // One statement of a run: history before `now` is kept, closed versions are kept, and the
  // live tuples change exactly as in the plain table.
  lemma {:induction false} StatementEffect(c: Columns, heap: Heap, s: Stmt, now: int)
    requires Ordinary(c, s) && History(c, heap, now)
    ensures var h := After(c, heap, s, now);
            PastKept(c, heap, h, now) && Live(c, h) == Plain(c, Live(c, heap), s, now)
  {
    if s.Insert? {
      InsertEffect(c, heap, Filled(c, s.tuple, now), now);
    } else {
      assert heap[0..|heap|] == heap[..|heap|] == heap;
      ScanFails(c, heap, s, 0, |heap|, now);
      if Scan(c, heap, s, 0, |heap|, now).Ok? {
        ScanLive(c, heap, s, 0, |heap|, now);
        ScanKeepsPast(c, heap, s, 0, |heap|, now);
      }
    }
  }

  lemma {:induction false} InsertEffect(c: Columns, heap: Heap, u: Tuple, now: int)
    requires History(c, heap, now) && Dated(c, u) && u[c.on].v == now && u[c.off].v == NOEND
    ensures var h := heap + [Some(u)];
            PastKept(c, heap, h, now) && Live(c, h) == Live(c, heap) + multiset{u}
  {
    forall t | t < now ensures AsOf(c, heap + [Some(u)], t) == AsOf(c, heap, t) { SplitLast(c, heap, Some(u), t); }
    LiveLast(c, heap, Some(u));
    AppendKeepsHistory(c, heap, u, now);
  }

  lemma {:induction false} AppendKeepsHistory(c: Columns, heap: Heap, u: Tuple, now: int)
    requires History(c, heap, now) && Dated(c, u) && u[c.on].v == now && u[c.off].v == NOEND
    ensures History(c, heap + [Some(u)], now) && ClosedKept(c, heap, heap + [Some(u)])
  {
  }

  // Once the clock has passed every date, what is visible is what is live.
  lemma {:induction false} PresentIsLive(c: Columns, heap: Heap, clock: int, t: int)
    requires History(c, heap, clock) && clock <= t < NOEND
    ensures AsOf(c, heap, t) == Live(c, heap)
  {
    if heap != [] {
      var init := heap[..|heap| - 1];
      PresentIsLive(c, init, clock, t);
      var slot := heap[|heap| - 1];
      if slot.Some? && slot.value[c.off].v == NOEND {
        assert Reopened(c, slot.value) == slot.value;
      }
    }
  }

  // Rows whose stop date is infinity are exactly the rows of the plain table.
  lemma {:induction false} LiveRowsArePlainRows(c: Columns, run: seq<Step>)
    requires Chronological(c, run)
    ensures Live(c, Run(c, run)) == PlainRun(c, run)
  {
    if run != [] {
      var init, s := run[..|run| - 1], run[|run| - 1];
      LiveRowsArePlainRows(c, init);
      RunHistory(c, init, s.now);
      StatementEffect(c, Run(c, init), s.stmt, s.now);
    }
  }

  lemma {:induction false} RunHistory(c: Columns, run: seq<Step>, now: int)
    requires Chronological(c, run) && now < NOEND
    requires run != [] ==> run[|run| - 1].now <= now
    ensures History(c, Run(c, run), now)
  {
  }

  // Time travel: for every run and every instant t, the rows valid at t are exactly the rows the
  // plain table held at the end of t.
  lemma {:induction false} TimeTravelIsFaithful(c: Columns, run: seq<Step>, t: int)
    requires Chronological(c, run) && t < NOEND
    ensures Chronological(c, Until(run, t))
    ensures AsOf(c, Run(c, run), t) == PlainRun(c, Until(run, t))
  {
    if run == [] || run[|run| - 1].now <= t {
      RunHistory(c, run, t);
      PresentIsLive(c, Run(c, run), t, t);
      LiveRowsArePlainRows(c, run);
    } else {
      var init, s := run[..|run| - 1], run[|run| - 1];
      TimeTravelIsFaithful(c, init, t);
      RunHistory(c, init, s.now);
      StatementEffect(c, Run(c, init), s.stmt, s.now);
    }
  }

  // A closed version never changes again, whatever is executed after it.
  lemma {:induction false} ClosedVersionsNeverChange(c: Columns, run: seq<Step>, k: nat)
    requires Chronological(c, run) && k <= |run|
    ensures ClosedKept(c, Run(c, run[..k]), Run(c, run))
    decreases |run|
  {
    if k == |run| {
      assert run[..k] == run;
    } else {
      var init, s := run[..|run| - 1], run[|run| - 1];
      assert init[..k] == run[..k];
      ClosedVersionsNeverChange(c, init, k);
      RunHistory(c, init, s.now);
      StatementEffect(c, Run(c, init), s.stmt, s.now);
      ClosedKeptTransitive(c, Run(c, run[..k]), Run(c, init), Run(c, run));
    }
  }

  lemma {:induction false} ClosedKeptTransitive(c: Columns, h0: Heap, h1: Heap, h2: Heap)
    requires ClosedKept(c, h0, h1) && ClosedKept(c, h1, h2)
    ensures ClosedKept(c, h0, h2)
  {
  }
}
