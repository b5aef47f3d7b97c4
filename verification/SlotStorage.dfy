/** The slots table as the generator uses it, and the buffer of rows waiting to be inserted. */
module SlotStorage {
  import opened Wrappers
  import opened Domain

  // ---- The table's constraints ----

  predicate SameKey(a: Slot, b: Slot) {
    a.roomID == b.roomID && a.start == b.start
  }

  predicate Overlap(a: Slot, b: Slot) {
    a.roomID == b.roomID && a.start < b.end && b.start < a.end
  }

  predicate Taken(stored: seq<Slot>, row: Slot) {
    exists i | 0 <= i < |stored| :: SameKey(stored[i], row)
  }

  predicate Clashes(stored: seq<Slot>, row: Slot) {
    exists i | 0 <= i < |stored| :: Overlap(stored[i], row)
  }

  // INSERT ... ON CONFLICT (room_id, start_time) DO NOTHING
  function InsertRow(stored: seq<Slot>, row: Slot): seq<Slot> {
    if Taken(stored, row) then stored else stored + [row]
  }

  function InsertRows(stored: seq<Slot>, rows: seq<Slot>): seq<Slot> {
    if rows == [] then stored
    else InsertRow(InsertRows(stored, rows[..|rows| - 1]), rows[|rows| - 1])
  }

  // Inserting rows in order comes to one that is not a duplicate and meets a stored slot.
  ghost predicate Refused(stored: seq<Slot>, rows: seq<Slot>) {
    exists k | 0 <= k < |rows| :: RefusedAt(stored, rows, k)
  }

  predicate RefusedAt(stored: seq<Slot>, rows: seq<Slot>, k: nat)
    requires k < |rows|
  {
    var there := InsertRows(stored, rows[..k]);
    !Taken(there, rows[k]) && Clashes(there, rows[k])
  }

  lemma {:induction false} InsertRowsAppend(stored: seq<Slot>, a: seq<Slot>, b: seq<Slot>)
    ensures InsertRows(stored, a + b) == InsertRows(InsertRows(stored, a), b)
  {
    if b == [] {
      assert a + b == a;
    } else {
      var front := b[..|b| - 1];
      InsertRowsAppend(stored, a, front);
      assert (a + b)[..|a + b| - 1] == a + front;
    }
  }

  lemma RefusedLater(stored: seq<Slot>, a: seq<Slot>, b: seq<Slot>)
    requires Refused(InsertRows(stored, a), b)
    ensures Refused(stored, a + b)
  {
    var k :| 0 <= k < |b| && RefusedAt(InsertRows(stored, a), b, k);
    InsertRowsAppend(stored, a, b[..k]);
    assert (a + b)[..|a| + k] == a + b[..k];
    assert RefusedAt(stored, a + b, |a| + k);
  }

  lemma RefusedLonger(stored: seq<Slot>, a: seq<Slot>, b: seq<Slot>)
    requires Refused(stored, a) && a <= b
    ensures Refused(stored, b)
  {
    var k :| 0 <= k < |a| && RefusedAt(stored, a, k);
    assert b[..k] == a[..k];
    assert RefusedAt(stored, b, k);
  }

  function Later(a: Option<Time>, t: Time): Option<Time> {
    if a.None? || a.value < t then Some(t) else a
  }

  // ORDER BY start_time DESC LIMIT 1
  function Latest(stored: seq<Slot>, room: RoomId): (r: Option<Time>)
    ensures r.Some? ==> exists i | 0 <= i < |stored| :: stored[i].roomID == room && stored[i].start == r.value
    ensures forall i | 0 <= i < |stored| && stored[i].roomID == room :: r.Some? && stored[i].start <= r.value
  {
    if stored == [] then None
    else
      var row := stored[|stored| - 1];
      var rest := Latest(stored[..|stored| - 1], room);
      if row.roomID == room then Later(rest, row.start) else rest
  }

  // A request's context: cancelled after the given number of looks at it, if at all.
  class Context {
    var left: Option<nat>

    constructor (left: Option<nat>)
      ensures this.left == left
    {
      this.left := left;
    }

    method Err() returns (cancelled: bool)
      modifies this
      ensures cancelled <==> old(left) == Some(0)
      ensures left == if old(left).Some? && old(left).value > 0 then Some(old(left).value - 1) else old(left)
    {
      cancelled := left == Some(0);
      if left.Some? && left.value > 0 {
        left := Some(left.value - 1);
      }
    }
  }

  // faults says of each coming call whether it fails; an insert that fails with Some(n) may have stored n rows.
  class SlotTable {
    var stored: seq<Slot>
    var batches: seq<seq<Slot>>
    var faults: seq<Option<nat>>

    constructor (faults: seq<Option<nat>>)
      ensures stored == [] && batches == [] && this.faults == faults
    {
      stored, batches, this.faults := [], [], faults;
    }

    predicate Faulty()
      reads `faults
    {
      exists i | 0 <= i < |faults| :: faults[i].Some?
    }

    // The next call fails, an insert after any number of its rows.
    predicate NextFails()
      reads `faults
    {
      faults != [] && faults[0].Some?
    }

    method NextFault() returns (fault: Option<nat>)
      modifies `faults
      ensures fault == if old(faults) == [] then None else old(faults)[0]
      ensures faults == if old(faults) == [] then [] else old(faults)[1..]
      ensures fault.Some? || Faulty() ==> old(Faulty())
    {
      fault := None;
      if faults != [] {
        fault := faults[0];
        assert forall i | 0 <= i < |faults[1..]| :: faults[1..][i] == faults[i + 1];
        faults := faults[1..];
      }
    }

    method GetLastSlotStartByRoomID(room: RoomId) returns (r: Result<Option<Time>, ErrorCode>)
      modifies `faults
      ensures r.Success? ==> r.value == Latest(stored, room)
      ensures r.Failure? ==> old(Faulty())
      ensures old(NextFails()) ==> r.Failure?
      ensures Faulty() ==> old(Faulty())
    {
      var fault := NextFault();
      if fault.Some? {
        return Failure(InternalError);
      }
      var last := None;
      for i := 0 to |stored|
        invariant last == Latest(stored[..i], room)
      {
        assert stored[..i + 1][..i] == stored[..i];
        if stored[i].roomID == room {
          last := Later(last, stored[i].start);
        }
      }
      assert stored[..|stored|] == stored;
      return Success(last);
    }

    // The rows go in one by one. A row that meets a stored slot undoes the batch; kept counts the rows that stay.
    method InsertBatchIgnoreConflicts(rows: seq<Slot>) returns (r: Result<(), ErrorCode>, ghost kept: nat)
      modifies this
      ensures batches == if rows == [] then old(batches) else old(batches) + [rows]
      ensures kept <= |rows| && stored == InsertRows(old(stored), rows[..kept])
      ensures r.Success? ==> kept == |rows|
      ensures r.Failure? ==> old(Faulty()) || Refused(old(stored), rows)
      ensures rows != [] && old(NextFails()) ==> r.Failure?
      ensures Faulty() ==> old(Faulty())
    {
      kept := 0;
      if rows == [] {
        return Success(()), 0;
      }
      batches := batches + [rows];
      var fault := NextFault();
      var before := stored;
      for i := 0 to |rows|
        invariant kept == i && stored == InsertRows(before, rows[..i])
        invariant batches == old(batches) + [rows]
        invariant fault.Some? || Faulty() ==> old(Faulty())
      {
        if fault == Some(i) {
          return Failure(InternalError), i;
        }
        assert rows[..i + 1][..i] == rows[..i];
        if !Taken(stored, rows[i]) {
          if Clashes(stored, rows[i]) {
            assert RefusedAt(before, rows, i);
            stored := before;
            return Failure(InternalError), 0;
          }
          stored := stored + [rows[i]];
        }
        kept := kept + 1;
      }
      assert rows[..|rows|] == rows;
      if fault.Some? {
        return Failure(InternalError), |rows|;
      }
      return Success(()), |rows|;
    }
  }

  // ---- The buffer ----

  function Concat(batches: seq<seq<Slot>>): seq<Slot> {
    FirstOf(batches, |batches|)
  }

  function FirstOf(batches: seq<seq<Slot>>, n: nat): seq<Slot>
    requires n <= |batches|
  {
    if n == 0 then [] else FirstOf(batches, n - 1) + batches[n - 1]
  }

  lemma {:induction false} FirstOfLonger(batches: seq<seq<Slot>>, piece: seq<Slot>, n: nat)
    requires n <= |batches|
    ensures FirstOf(batches + [piece], n) == FirstOf(batches, n)
  {
    if n > 0 {
      FirstOfLonger(batches, piece, n - 1);
    }
  }

  // The batches cut a beginning of rows into pieces of the given size; only the last piece may be shorter.
  ghost predicate Cuts(batches: seq<seq<Slot>>, rows: seq<Slot>, size: nat) {
    && Concat(batches) <= rows
    && forall k | 0 <= k < |batches| :: 0 < |batches[k]| <= size && (k + 1 < |batches| ==> |batches[k]| == size)
  }

  ghost predicate AllFull(batches: seq<seq<Slot>>, size: nat) {
    forall k | 0 <= k < |batches| :: |batches[k]| == size
  }

  // The first landed of the emitted rows, and no others, were offered to a table that held base; they were
  // sent in batches of the given size.
  ghost predicate Lands(
    base: seq<Slot>, stored: seq<Slot>, sent: seq<seq<Slot>>, emitted: seq<Slot>, landed: nat, size: nat)
  {
    landed <= |emitted| && stored == InsertRows(base, emitted[..landed]) && Cuts(sent, emitted, size)
  }

  lemma Sent(base: seq<Slot>, before: seq<Slot>, stored: seq<Slot>, sent: seq<seq<Slot>>, emitted: seq<Slot>,
             landed: nat, piece: seq<Slot>, kept: nat, size: nat)
    requires Lands(base, before, sent, emitted, landed, size)
    requires Concat(sent) == emitted[..landed] && AllFull(sent, size)
    requires piece == emitted[landed..] && 0 < |piece| <= size && kept <= |piece|
    requires stored == InsertRows(before, piece[..kept])
    ensures Lands(base, stored, sent + [piece], emitted, landed + kept, size)
    ensures Concat(sent + [piece]) == emitted
    ensures |piece| == size ==> AllFull(sent + [piece], size)
    ensures Refused(before, piece) ==> Refused(base, emitted)
  {
    FirstOfLonger(sent, piece, |sent|);
    assert emitted[..landed] + piece == emitted;
    assert emitted[..landed + kept] == emitted[..landed] + piece[..kept];
    InsertRowsAppend(base, emitted[..landed], piece[..kept]);
    if Refused(before, piece) {
      RefusedLater(base, emitted[..landed], piece);
    }
  }

  // The slice the generator fills and reuses. The ghost fields record what has gone through it: the rows
  // emitted so far, how many of them were offered to the table, and the batches they were sent in.
  class Batch {
    const table: SlotTable
    const rows: array<Slot>
    var count: nat
    ghost const base: seq<Slot>
    ghost const log: seq<seq<Slot>>
    ghost var emitted: seq<Slot>
    ghost var landed: nat
    ghost var sent: seq<seq<Slot>>

    constructor (table: SlotTable, maxBatch: nat)
      requires maxBatch > 0
      ensures this.table == table && rows.Length == maxBatch && fresh(rows)
      ensures base == table.stored && log == table.batches && emitted == []
      ensures Valid()
    {
      this.table := table;
      rows := new Slot[maxBatch](_ => Slot(0, 0, 0));
      count := 0;
      base, log, emitted, landed, sent := table.stored, table.batches, [], 0, [];
    }

    // Even after a failure: the first landed rows, and no others, have been offered to the table.
    ghost predicate Landed()
      reads this, table
    {
      && Lands(base, table.stored, sent, emitted, landed, rows.Length)
      && table.batches == log + sent
    }

    ghost predicate Buffered()
      reads this, table, rows
    {
      && Landed()
      && count <= rows.Length
      && landed + count == |emitted|
      && rows[..count] == emitted[landed..]
      && Concat(sent) == emitted[..landed]
      && AllFull(sent, rows.Length)
    }

    ghost predicate Valid()
      reads this, table, rows
    {
      Buffered() && count < rows.Length
    }

    // Everything emitted, in order, is in the table and in the batches.
    ghost predicate Done()
      reads this, table
    {
      Landed() && landed == |emitted| && Concat(sent) == emitted
    }

    // Why an insert failed: a fault of the database, or a row the overlap constraint refuses.
    twostate predicate Excused()
      reads this, table
    {
      old(table.Faulty()) || Refused(base, emitted)
    }

    method Append(row: Slot) returns (r: Result<(), ErrorCode>)
      requires Valid()
      modifies this, rows, table
      ensures emitted == old(emitted) + [row]
      ensures Landed()
      ensures r.Success? ==> Valid()
      ensures r.Failure? ==> Excused()
      ensures table.Faulty() ==> old(table.Faulty())
    {
      rows[count] := row;
      count := count + 1;
      emitted := emitted + [row];
      assert emitted[..landed] == old(emitted)[..landed];
      assert rows[..count] == emitted[landed..];
      if count < rows.Length {
        return Success(());
      }
      r := Flush();
      if r.Success? {
        assert emitted[..landed] == emitted && emitted[landed..] == rows[..count];
      }
    }

    // Also called between the two halves of Append, with a full buffer.
    method Flush() returns (r: Result<(), ErrorCode>)
      requires Buffered() && rows.Length > 0
      modifies this, table
      ensures emitted == old(emitted)
      ensures Landed()
      ensures r.Success? ==> count == 0 && Done()
      ensures r.Success? && old(count) == rows.Length ==> AllFull(sent, rows.Length)
      ensures r.Failure? ==> Excused()
      ensures table.Faulty() ==> old(table.Faulty())
    {
      if count == 0 {
        assert emitted[..landed] == emitted;
        return Success(());
      }
      r := Send(rows[..count]);
      if r.Success? {
        count := 0;
      }
    }

    method Send(piece: seq<Slot>) returns (r: Result<(), ErrorCode>)
      requires Landed() && piece == emitted[landed..] && 0 < |piece| <= rows.Length
      requires Concat(sent) == emitted[..landed] && AllFull(sent, rows.Length)
      modifies this`sent, this`landed, table
      ensures Landed()
      ensures r.Success? ==> Done()
      ensures r.Success? && |piece| == rows.Length ==> AllFull(sent, rows.Length)
      ensures r.Failure? ==> Excused()
      ensures table.Faulty() ==> old(table.Faulty())
    {
      ghost var kept: nat;
      r, kept := table.InsertBatchIgnoreConflicts(piece);
      Sent(base, old(table.stored), table.stored, sent, emitted, landed, piece, kept, rows.Length);
      sent, landed := sent + [piece], landed + kept;
    }
  }
}
