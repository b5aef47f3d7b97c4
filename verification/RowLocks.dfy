/** Transactions interleaved call by call under row locks, with READ COMMITTED reads and rollbacks. */
module RowLocks {
  import opened Wrappers
  import opened Domain
  import opened Tables

  type TxId = nat

  // An open transaction: what it has written, which rows it has locked, which reservations it has taken out of
  // 'active' and which waitlist entries it has claimed.
  datatype Tx = Tx(
    reservations: map<nat, SlotReservation>,
    entries: map<nat, WaitlistEntry>,
    lockedReservations: set<nat>,
    lockedEntries: set<nat>,
    ended: set<nat>,
    claimed: set<nat>)

  // The committed rows, the open transactions, and - over all transactions that have committed - how often each
  // reservation has been taken out of 'active' and how often each entry has been claimed.
  datatype World = World(
    reservations: map<nat, SlotReservation>,
    entries: map<nat, WaitlistEntry>,
    open: map<TxId, Tx>,
    ended: multiset<nat>,
    claimed: multiset<nat>)

  // One repository call of one transaction.
  datatype Call =
    | Begin
    | InsertReservation(id: nat, row: SlotReservation)
    | InsertEntry(id: nat, entry: WaitlistEntry)
    | LockReservation(id: nat)                              // SELECT ... WHERE id = $1 FOR UPDATE
    | EndReservation(id: nat, status: ReservationStatus)    // UPDATE ... WHERE id = $1 AND status = 'active'
    | ExpireBatch(picked: set<nat>, now: Time)              // ... LIMIT $2 FOR UPDATE SKIP LOCKED
    | Claim(slotID: SlotId, chosen: Option<nat>, dbNow: Time) // ... ORDER BY position LIMIT 1 FOR UPDATE SKIP LOCKED
    | LeaveEntry(id: nat)                                   // UPDATE ... WHERE status IN ('active', 'notified')
    | Commit
    | Rollback

  // What transaction t reads: its own writes over the committed rows.
  function SeenReservations(w: World, t: TxId): map<nat, SlotReservation>
    requires t in w.open
  {
    w.reservations + w.open[t].reservations
  }

  function SeenEntries(w: World, t: TxId): map<nat, WaitlistEntry>
    requires t in w.open
  {
    w.entries + w.open[t].entries
  }

  ghost predicate ReservationFree(w: World, t: TxId, id: nat) {
    forall u | u in w.open && u != t :: id !in w.open[u].lockedReservations
  }

  ghost predicate EntryFree(w: World, t: TxId, id: nat) {
    forall u | u in w.open && u != t :: id !in w.open[u].lockedEntries
  }

  // The rows a claim may take: waiting for the slot and not locked by somebody else.
  ghost predicate Claimable(w: World, t: TxId, s: SlotId, e: nat)
    requires t in w.open
  {
    e in SeenEntries(w, t) && Waits(SeenEntries(w, t)[e], s) && EntryFree(w, t, e)
  }

  // A call that would have to wait for a lock is not possible; one that skips locked rows never waits.
  ghost predicate Possible(w: World, t: TxId, call: Call) {
    match call
    case Begin => t !in w.open
    case Commit => t in w.open
    case Rollback => t in w.open
    case InsertReservation(id, row) =>
      && t in w.open && row.status.Active? && id !in w.reservations
      && forall u | u in w.open :: id !in w.open[u].reservations
    case InsertEntry(id, entry) =>
      t in w.open && entry.status.Active? && entry.notifiedAt.None?
      && id !in w.entries && forall u | u in w.open :: id !in w.open[u].entries
    case LockReservation(id) => t in w.open && ReservationFree(w, t, id)
    case EndReservation(id, status) => t in w.open && !status.Active? && ReservationFree(w, t, id)
    case ExpireBatch(picked, now) =>
      t in w.open && forall id | id in picked ::
        id in SeenReservations(w, t) && Due(SeenReservations(w, t)[id], now) && ReservationFree(w, t, id)
    case Claim(s, picked, _) =>
      t in w.open &&
      (match picked
       case None => forall e :: !Claimable(w, t, s, e)
       case Some(e) =>
         Claimable(w, t, s, e) && forall f | Claimable(w, t, s, f) ::
           SeenEntries(w, t)[e].position <= SeenEntries(w, t)[f].position)
    case LeaveEntry(id) => t in w.open && EntryFree(w, t, id)
  }

  // The transaction after a call of its own.
  ghost function After(w: World, t: TxId, call: Call): Tx
    requires Possible(w, t, call) && !call.Begin?
  {
    var x := w.open[t];
    match call
    case InsertReservation(id, row) =>
      x.(reservations := x.reservations[id := row], lockedReservations := x.lockedReservations + {id})
    case InsertEntry(id, entry) =>
      x.(entries := x.entries[id := entry], lockedEntries := x.lockedEntries + {id})
    case LockReservation(id) =>
      if id in SeenReservations(w, t) then x.(lockedReservations := x.lockedReservations + {id}) else x
    case EndReservation(id, status) =>
      if id in SeenReservations(w, t) && SeenReservations(w, t)[id].status.Active? then
        x.(reservations := x.reservations[id := SeenReservations(w, t)[id].(status := status)],
           lockedReservations := x.lockedReservations + {id}, ended := x.ended + {id})
      else x
    case ExpireBatch(picked, now) =>
      x.(reservations := x.reservations
           + map id | id in picked ::
               SeenReservations(w, t)[id].(status := ReservationStatus.Expired, expiredAt := Some(now)),
         lockedReservations := x.lockedReservations + picked, ended := x.ended + picked)
    case Claim(s, picked, dbNow) =>
      if picked.None? then x
      else
        var e := picked.value;
        var notified := SeenEntries(w, t)[e].(status := WaitlistStatus.Notified, notifiedAt := Some(dbNow));
        x.(entries := x.entries[e := notified],
           lockedEntries := x.lockedEntries + {e}, claimed := x.claimed + {e})
    case LeaveEntry(id) =>
      if id in SeenEntries(w, t)
         && (SeenEntries(w, t)[id].status.Active? || SeenEntries(w, t)[id].status.Notified?) then
        x.(entries := x.entries[id := SeenEntries(w, t)[id].(status := WaitlistStatus.Cancelled)],
           lockedEntries := x.lockedEntries + {id})
      else x
    case Commit => x
    case Rollback => x
  }

  ghost function Next(w: World, t: TxId, call: Call): World
    requires Possible(w, t, call)
  {
    match call
    case Begin => w.(open := w.open[t := Tx(map[], map[], {}, {}, {}, {})])
    case Commit =>
      var x := w.open[t];
      World(w.reservations + x.reservations, w.entries + x.entries, w.open - {t},
            w.ended + multiset(x.ended), w.claimed + multiset(x.claimed))
    case Rollback => w.(open := w.open - {t})
    case _ => w.(open := w.open[t := After(w, t, call)])
  }

  // ---- The invariant ----

  // Two open transactions have no locked row in common.
  ghost predicate LocksDisjoint(w: World) {
    forall t, u | t in w.open && u in w.open && t != u ::
      && w.open[t].lockedReservations !! w.open[u].lockedReservations
      && w.open[t].lockedEntries !! w.open[u].lockedEntries
  }

  // A transaction holds the locks of what it has written; what it has ended is active in the committed rows and has
  // not been ended by anybody else; everything else it has written is a new active row.
  ghost predicate ReservationsOwned(w: World, x: Tx) {
    && x.reservations.Keys <= x.lockedReservations <= w.reservations.Keys + x.reservations.Keys
    && x.ended <= x.reservations.Keys
    && (forall r | r in x.ended :: !x.reservations[r].status.Active? && w.ended[r] == 0
                                   && (r in w.reservations ==> w.reservations[r].status.Active?))
    && (forall r | r in x.reservations && r !in x.ended :: x.reservations[r].status.Active? && r !in w.reservations)
  }

  ghost predicate EntriesOwned(w: World, x: Tx) {
    && x.entries.Keys <= x.lockedEntries <= w.entries.Keys + x.entries.Keys
    && x.claimed <= x.entries.Keys
    && (forall e | e in x.entries :: x.entries[e].status.Active? ==> x.entries[e].notifiedAt.None?)
    && (forall e | e in x.claimed :: x.entries[e].notifiedAt.Some? && w.claimed[e] == 0
                                     && (e in w.entries ==> w.entries[e].notifiedAt.None?))
    && (forall e | e in x.entries && e !in x.claimed ::
          if e in w.entries then x.entries[e].notifiedAt == w.entries[e].notifiedAt else x.entries[e].notifiedAt.None?)
  }

  // A committed reservation has been ended exactly once if it is not active, and never if it is;
  // a committed entry has been claimed exactly once if it is stamped, and never if it is not.
  ghost predicate EndsCounted(w: World) {
    forall r :: w.ended[r] == if r in w.reservations && !w.reservations[r].status.Active? then 1 else 0
  }

  ghost predicate ClaimsCounted(w: World) {
    && (forall e :: w.claimed[e] == if e in w.entries && w.entries[e].notifiedAt.Some? then 1 else 0)
    && (forall e | e in w.entries :: w.entries[e].status.Active? ==> w.entries[e].notifiedAt.None?)
  }

  ghost predicate CountsRight(w: World) {
    EndsCounted(w) && ClaimsCounted(w)
  }

  ghost predicate Owned(w: World) {
    forall t | t in w.open :: ReservationsOwned(w, w.open[t]) && EntriesOwned(w, w.open[t])
  }

  ghost predicate LockInv(w: World) {
    LocksDisjoint(w) && Owned(w) && CountsRight(w)
  }

  // ---- Every call keeps it ----

  predicate Inside(call: Call) {
    !call.Begin? && !call.Commit? && !call.Rollback?
  }

  // A call inside a transaction takes no locked row from another one.
  lemma CallTakesFreeReservations(w: World, t: TxId, call: Call, u: TxId)
    requires Possible(w, t, call) && Inside(call) && u in w.open && u != t
    requires ReservationsOwned(w, w.open[u])
    requires w.open[t].lockedReservations !! w.open[u].lockedReservations
    ensures After(w, t, call).lockedReservations !! w.open[u].lockedReservations
  {
  }

  lemma CallTakesFreeEntries(w: World, t: TxId, call: Call, u: TxId)
    requires Possible(w, t, call) && Inside(call) && u in w.open && u != t
    requires EntriesOwned(w, w.open[u])
    requires w.open[t].lockedEntries !! w.open[u].lockedEntries
    ensures After(w, t, call).lockedEntries !! w.open[u].lockedEntries
  {
  }

  lemma CallKeepsLocks(w: World, t: TxId, call: Call)
    requires LocksDisjoint(w) && Owned(w) && Possible(w, t, call) && Inside(call)
    ensures LocksDisjoint(Next(w, t, call))
  {
    forall u | u in w.open && u != t
      ensures After(w, t, call).lockedReservations !! w.open[u].lockedReservations
      ensures After(w, t, call).lockedEntries !! w.open[u].lockedEntries
    {
      CallTakesFreeReservations(w, t, call, u);
      CallTakesFreeEntries(w, t, call, u);
    }
  }

  lemma CallOwnsReservations(w: World, t: TxId, call: Call)
    requires EndsCounted(w) && Possible(w, t, call) && Inside(call) && ReservationsOwned(w, w.open[t])
    ensures ReservationsOwned(w, After(w, t, call))
  {
  }

  lemma CallOwnsEntries(w: World, t: TxId, call: Call)
    requires ClaimsCounted(w) && Possible(w, t, call) && Inside(call) && EntriesOwned(w, w.open[t])
    ensures EntriesOwned(w, After(w, t, call))
  {
  }

  lemma CallKeepsOwned(w: World, t: TxId, call: Call)
    requires Owned(w) && CountsRight(w) && Possible(w, t, call) && Inside(call)
    ensures Owned(Next(w, t, call))
  {
    CallOwnsReservations(w, t, call);
    CallOwnsEntries(w, t, call);
    var after := Next(w, t, call);
    forall u | u in after.open ensures ReservationsOwned(after, after.open[u]) && EntriesOwned(after, after.open[u]) {
      assert u != t ==> ReservationsOwned(w, w.open[u]) && EntriesOwned(w, w.open[u]);
    }
  }

  lemma CommitCountsEnds(w: World, t: TxId)
    requires EndsCounted(w) && t in w.open && ReservationsOwned(w, w.open[t])
    ensures EndsCounted(Next(w, t, Commit))
  {
  }

  lemma CommitCountsClaims(w: World, t: TxId)
    requires ClaimsCounted(w) && t in w.open && EntriesOwned(w, w.open[t])
    ensures ClaimsCounted(Next(w, t, Commit))
  {
  }

  // The rows a transaction publishes are not rows another one has written or locked.
  lemma CommitKeepsOwned(w: World, t: TxId, u: TxId)
    requires t in w.open && u in w.open && u != t && LocksDisjoint(w)
    requires ReservationsOwned(w, w.open[t]) && EntriesOwned(w, w.open[t])
    requires ReservationsOwned(w, w.open[u]) && EntriesOwned(w, w.open[u])
    ensures ReservationsOwned(Next(w, t, Commit), w.open[u]) && EntriesOwned(Next(w, t, Commit), w.open[u])
  {
    assert w.open[t].lockedReservations !! w.open[u].lockedReservations;
    assert w.open[t].lockedEntries !! w.open[u].lockedEntries;
  }

  lemma CommitKeepsInv(w: World, t: TxId)
    requires LockInv(w) && t in w.open
    ensures LockInv(Next(w, t, Commit))
  {
    CommitCountsEnds(w, t);
    CommitCountsClaims(w, t);
    forall u | u in w.open && u != t
      ensures ReservationsOwned(Next(w, t, Commit), w.open[u]) && EntriesOwned(Next(w, t, Commit), w.open[u])
    {
      CommitKeepsOwned(w, t, u);
    }
  }

  lemma EdgeKeepsInv(w: World, t: TxId, call: Call)
    requires LockInv(w) && Possible(w, t, call) && (call.Begin? || call.Rollback?)
    ensures LockInv(Next(w, t, call))
  {
    var after := Next(w, t, call);
    forall u | u in after.open ensures ReservationsOwned(after, after.open[u]) && EntriesOwned(after, after.open[u]) {
      assert u in w.open ==> ReservationsOwned(w, w.open[u]) && EntriesOwned(w, w.open[u]);
    }
  }

  lemma StepKeepsInv(w: World, t: TxId, call: Call)
    requires LockInv(w) && Possible(w, t, call)
    ensures LockInv(Next(w, t, call))
  {
    if Inside(call) {
      CallKeepsLocks(w, t, call);
      CallKeepsOwned(w, t, call);
    } else if call.Commit? {
      CommitKeepsInv(w, t);
    } else {
      EdgeKeepsInv(w, t, call);
    }
  }

  // ---- Any interleaving ----

  datatype Turn = Turn(tx: TxId, call: Call)

  ghost predicate IsSchedule(trace: seq<World>, turns: seq<Turn>) {
    && |trace| == |turns| + 1
    && forall k | 0 <= k < |turns| ::
      Possible(trace[k], turns[k].tx, turns[k].call) && trace[k + 1] == Next(trace[k], turns[k].tx, turns[k].call)
  }

  const EMPTY_WORLD := World(map[], map[], map[], multiset{}, multiset{})

  lemma {:induction false} ScheduleKeepsInv(trace: seq<World>, turns: seq<Turn>, k: nat)
    requires IsSchedule(trace, turns) && trace[0] == EMPTY_WORLD && k <= |turns|
    ensures LockInv(trace[k])
  {
    if k > 0 {
      ScheduleKeepsInv(trace, turns, k - 1);
      StepKeepsInv(trace[k - 1], turns[k - 1].tx, turns[k - 1].call);
    }
  }

  // However the calls of any number of transactions are interleaved, and whichever of them roll back: a committed
  // reservation that is no longer active was taken out of 'active' by exactly one committed transaction, and a
  // committed entry that has been notified was claimed by exactly one; no reservation and no entry by more.
  lemma AtMostOneWins(trace: seq<World>, turns: seq<Turn>, k: nat, r: nat, e: nat)
    requires IsSchedule(trace, turns) && trace[0] == EMPTY_WORLD && k <= |turns|
    ensures trace[k].ended[r] <= 1 && trace[k].claimed[e] <= 1
    ensures trace[k].ended[r] == 1 <==> r in trace[k].reservations && !trace[k].reservations[r].status.Active?
    ensures trace[k].claimed[e] == 1 <==> e in trace[k].entries && trace[k].entries[e].notifiedAt.Some?
  {
    ScheduleKeepsInv(trace, turns, k);
  }

  // While one transaction has taken a reservation out of 'active', no other can see it as active and end it too.
  lemma NoSecondEnder(trace: seq<World>, turns: seq<Turn>, k: nat, t: TxId, u: TxId, r: nat)
    requires IsSchedule(trace, turns) && trace[0] == EMPTY_WORLD && k <= |turns|
    requires t in trace[k].open && u in trace[k].open && t != u && r in trace[k].open[t].ended
    ensures r !in trace[k].open[u].ended && !ReservationFree(trace[k], u, r)
  {
    ScheduleKeepsInv(trace, turns, k);
    var w := trace[k];
    assert ReservationsOwned(w, w.open[t]) && ReservationsOwned(w, w.open[u]);
    assert w.open[t].lockedReservations !! w.open[u].lockedReservations;
  }
}
