/** Expiry of unpaid bookings: one read, then one conditional transaction, by any number of duplicate jobs. */
module BookingExpiry {
  import opened Basics

  datatype BookingStatus = Draft | PendingPayment | Confirmed | Cancelled | Completed
  datatype SeatStatus = Available | Locked | Booked

  /** A booking row with the seat of each of its passengers. */
  datatype Booking = Booking(status: BookingStatus, passengerSeats: seq<Option<int>>)
  datatype Seat = Seat(status: SeatStatus, version: int)
  datatype Redemption = Redemption(bookingId: int, voucherId: int)
  datatype HistoryRow = HistoryRow(bookingId: int, fromStatus: BookingStatus, toStatus: BookingStatus, reason: string)

  const EXPIRED := "Booking expired"

  /** The tables the job touches; vouchers maps a voucher to its used count. */
  datatype Tables = Tables(
    bookings: map<int, Booking>, redemptions: map<int, Redemption>, vouchers: map<int, int>,
    seats: map<int, Seat>, history: seq<HistoryRow>)

  predicate Expirable(status: BookingStatus) {
    status == Draft || status == PendingPayment
  }

  function SeatIds(b: Booking): set<int> {
    set i | 0 <= i < |b.passengerSeats| && b.passengerSeats[i].Some? :: b.passengerSeats[i].value
  }

  // ----- The transaction -----------------------------------------------------------------

  datatype Outcome = Won | Lost | RolledBack

  /** findFirst answers with some redemption of the booking, or with none if there is none. */
  predicate IsFirst(t: Tables, bookingId: int, first: Option<int>) {
    match first
    case Some(r) => r in t.redemptions && t.redemptions[r].bookingId == bookingId
    case None => forall r :: r in t.redemptions ==> t.redemptions[r].bookingId != bookingId
  }

  /** updateMany on the listed seats that are LOCKED. */
  function FreeSeats(seats: map<int, Seat>, ids: set<int>): map<int, Seat> {
    map x | x in seats ::
      if x in ids && seats[x].status == Locked then Seat(Available, seats[x].version + 1) else seats[x]
  }

  /** The whole transaction as one step; `snapshot` is the booking as it was read before the transaction. */
  function Commit(t: Tables, id: int, snapshot: Booking, first: Option<int>): (Tables, Outcome) {
    if id !in t.bookings || !Expirable(t.bookings[id].status) then (t, Lost)
    else if first.Some? && (first.value !in t.redemptions || t.redemptions[first.value].voucherId !in t.vouchers)
    then (t, RolledBack)
    else
      var bookings := t.bookings[id := t.bookings[id].(status := Cancelled)];
      var redemptions := if first.Some? then t.redemptions - {first.value} else t.redemptions;
      var vouchers :=
        if first.None? then t.vouchers
        else var v := t.redemptions[first.value].voucherId; t.vouchers[v := t.vouchers[v] - 1];
      (Tables(bookings, redemptions, vouchers, FreeSeats(t.seats, SeatIds(snapshot)),
              t.history + [HistoryRow(id, snapshot.status, Cancelled, EXPIRED)]), Won)
  }

  /** The database, updated statement by statement. */
  class Database {
    var bookings: map<int, Booking>
    var redemptions: map<int, Redemption>
    var vouchers: map<int, int>
    var seats: map<int, Seat>
    var history: seq<HistoryRow>

    function Current(): Tables
      reads this
    {
      Tables(bookings, redemptions, vouchers, seats, history)
    }

    /** The read outside the transaction: the booking with its passengers, if it can still expire. */
    method ReadBooking(id: int) returns (snapshot: Option<Booking>)
      ensures snapshot.Some? <==> id in bookings && Expirable(bookings[id].status)
      ensures snapshot.Some? ==> snapshot.value == bookings[id]
    {
      if id in bookings && Expirable(bookings[id].status) {
        return Some(bookings[id]);
      }
      return None;
    }

    /** Conditional cancel, voucher release, seat release, history row; a missing voucher row rolls all of it back. */
    method CancelExpired(id: int, snapshot: Booking) returns (outcome: Outcome, first: Option<int>)
      modifies this
      ensures outcome == Lost || IsFirst(old(Current()), id, first)
      ensures (Current(), outcome) == Commit(old(Current()), id, snapshot, first)
    {
      if id !in bookings || !Expirable(bookings[id].status) {
        return Lost, None;
      }
      var before := Current();
      bookings := bookings[id := bookings[id].(status := Cancelled)];
      first := FindFirst(id);
      if first.Some? {
        var voucherId := redemptions[first.value].voucherId;
        redemptions := redemptions - {first.value};
        if voucherId !in vouchers {
          bookings, redemptions := before.bookings, before.redemptions;
          return RolledBack, first;
        }
        vouchers := vouchers[voucherId := vouchers[voucherId] - 1];
      }
      var locked := SeatIds(snapshot);
      if |locked| > 0 {
        seats := FreeSeats(seats, locked);
      } else {
        NoSeats(seats, locked);
      }
      history := history + [HistoryRow(id, snapshot.status, Cancelled, EXPIRED)];
      return Won, first;
    }

    /** Some redemption of the booking, if there is one. */
    method FindFirst(id: int) returns (first: Option<int>)
      ensures IsFirst(Current(), id, first)
    {
      if r :| r in redemptions && redemptions[r].bookingId == id {
        return Some(r);
      }
      return None;
    }

    /** While a job waits between its read and its transaction, others leave the tables in any state. */
    method Await(others: Tables)
      modifies this
      ensures Current() == others
    {
      bookings, redemptions, vouchers := others.bookings, others.redemptions, others.vouchers;
      seats, history := others.seats, others.history;
    }

    /** The whole job, for all tables that others leave between its read and its transaction. */
    method Process(id: int, others: Tables) returns (outcome: Outcome, first: Option<int>)
      modifies this
      ensures !Due(old(Current()), id) ==> outcome == Lost && Current() == old(Current())
      ensures Due(old(Current()), id) ==>
        && (outcome == Lost <==> !Due(others, id)) && (outcome == Lost || IsFirst(others, id, first))
        && (outcome == Won <==>
              Due(others, id) && (first.Some? ==> others.redemptions[first.value].voucherId in others.vouchers))
        && (outcome != Won ==> Current() == others)
        && (outcome == Won ==> Expired(others, Current(), id, old(bookings)[id], first))
    {
      hide Commit, Expired;
      var snapshot := ReadBooking(id);
      if snapshot.None? {
        return Lost, None;
      }
      Await(others);
      outcome, first := CancelExpired(id, snapshot.value);
      if Due(others, id) {
        DueIsNotLost(others, id, snapshot.value, first);
        CommitMeaning(others, id, snapshot.value, first);
      } else {
        NotDueLoses(others, id, snapshot.value, first);
      }
    }
  }

  predicate Due(t: Tables, id: int) {
    id in t.bookings && (t.bookings[id].status == Draft || t.bookings[id].status == PendingPayment)
  }

  /** Passenger i of the booking holds seat x, for some i. */
  ghost predicate HoldsSeat(b: Booking, x: int) {
    exists i :: 0 <= i < |b.passengerSeats| && b.passengerSeats[i] == Some(x)
  }

  /** What a winning transaction makes of tables t, table by table. */
  ghost predicate Expired(t: Tables, t': Tables, id: int, snapshot: Booking, first: Option<int>) {
    && id in t.bookings && t'.bookings == t.bookings[id := Booking(Cancelled, t.bookings[id].passengerSeats)]
    && t'.history == t.history + [HistoryRow(id, snapshot.status, Cancelled, "Booking expired")]
    && t'.seats.Keys == t.seats.Keys
    && (forall x :: x in t.seats ==>
          t'.seats[x] == if HoldsSeat(snapshot, x) && t.seats[x].status == Locked
                         then Seat(Available, t.seats[x].version + 1) else t.seats[x])
    && (first.None? ==> t'.redemptions == t.redemptions && t'.vouchers == t.vouchers)
    && (first.Some? ==>
          && first.value in t.redemptions && t.redemptions[first.value].voucherId in t.vouchers
          && t'.redemptions == t.redemptions - {first.value} && t'.vouchers.Keys == t.vouchers.Keys
          && forall v :: v in t.vouchers ==>
               t'.vouchers[v] == t.vouchers[v] - if v == t.redemptions[first.value].voucherId then 1 else 0)
  }

  /** The transaction, said without its own definition: it loses exactly if the booking is not DRAFT or PENDING_PAYMENT
      at that moment, it wins exactly if moreover the redemption found, if any, has its voucher row, and otherwise it
      is rolled back; and what every table then holds. */
  lemma CommitMeaning(t: Tables, id: int, snapshot: Booking, first: Option<int>)
    requires IsFirst(t, id, first)
    ensures var (t', outcome) := Commit(t, id, snapshot, first);
      && (outcome == Lost <==> !Due(t, id))
      && (outcome == Won <==> Due(t, id) && (first.Some? ==> t.redemptions[first.value].voucherId in t.vouchers))
      && (outcome != Won ==> t' == t)
      && (outcome == Won ==> Expired(t, t', id, snapshot, first))
  {
    assert forall x :: x in SeatIds(snapshot) <==> HoldsSeat(snapshot, x);
  }

  lemma DueIsNotLost(t: Tables, id: int, snapshot: Booking, first: Option<int>)
    requires Due(t, id)
    ensures Commit(t, id, snapshot, first).1 != Lost
  {
  }

  /** A booking that cannot expire loses whatever redemption is looked at. */
  lemma NotDueLoses(t: Tables, id: int, snapshot: Booking, first: Option<int>)
    requires !Due(t, id)
    ensures Commit(t, id, snapshot, first) == (t, Lost)
  {
  }

  lemma NoSeats(seats: map<int, Seat>, ids: set<int>)
    requires |ids| == 0
    ensures FreeSeats(seats, ids) == seats
  {
  }

  // ----- Jobs and their environment ----------------------------------------------------------

  /** A job waits, holds what it has read, or is done; duplicates for one booking are separate jobs. */
  datatype Job = Waiting(id: int) | HasRead(id: int, snapshot: Booking) | Done

  /** What a winning transaction did. */
  datatype Event = Event(id: int, statusAtCommit: BookingStatus, voucher: Option<int>, freed: set<int>)

  datatype State = State(t: Tables, jobs: seq<Job>, log: seq<Event>)

  ghost predicate EnqueueStep(s: State, s': State, id: int) {
    s' == s.(jobs := s.jobs + [Waiting(id)])
  }

  ghost predicate ReadStep(s: State, s': State, j: nat) {
    && j < |s.jobs| && s.jobs[j].Waiting?
    && var id := s.jobs[j].id;
       var expirable := id in s.t.bookings && Expirable(s.t.bookings[id].status);
       s' == s.(jobs := s.jobs[j := if expirable then HasRead(id, s.t.bookings[id]) else Done])
  }

  /** The locked seats a transaction frees. */
  function Freed(t: Tables, snapshot: Booking): set<int> {
    set x | x in SeatIds(snapshot) && x in t.seats && t.seats[x].status == Locked
  }

  ghost predicate CommitStep(s: State, s': State, j: nat, first: Option<int>) {
    && j < |s.jobs| && s.jobs[j].HasRead? && IsFirst(s.t, s.jobs[j].id, first)
    && var id, snapshot := s.jobs[j].id, s.jobs[j].snapshot;
       var (t', outcome) := Commit(s.t, id, snapshot, first);
       && s'.t == t' && s'.jobs == s.jobs[j := Done]
       && s'.log == if outcome != Won then s.log else
            s.log + [Event(id, s.t.bookings[id].status,
                           if first.Some? then Some(s.t.redemptions[first.value].voucherId) else None,
                           Freed(s.t, snapshot))]
  }

  /** Everyone else: any change of the tables that env allows. */
  ghost predicate EnvStep(s: State, s': State, env: (Tables, Tables) -> bool) {
    env(s.t, s'.t) && s' == s.(t := s'.t)
  }

  ghost predicate Step(s: State, s': State, env: (Tables, Tables) -> bool) {
    || (exists id: int :: EnqueueStep(s, s', id))
    || (exists j: nat :: ReadStep(s, s', j))
    || (exists j: nat, first: Option<int> :: CommitStep(s, s', j, first))
    || EnvStep(s, s', env)
  }

  /** A finite run: states joined by steps, starting with an empty log. */
  ghost predicate Run(run: seq<State>, env: (Tables, Tables) -> bool) {
    && |run| > 0 && run[0].log == []
    && forall i :: 0 <= i < |run| - 1 ==> Step(run[i], run[i + 1], env)
  }

  // ----- At most one expiry per booking ----------------------------------------------------

  /** Nobody leaves CANCELLED, and only the job writes its history reason. */
  ghost predicate KeepsCancelled(t: Tables, t': Tables) {
    && (forall b :: b in t.bookings && t.bookings[b].status == Cancelled ==>
          b in t'.bookings && t'.bookings[b].status == Cancelled)
    && (forall b: int :: ExpiredRows(t'.history, b) == ExpiredRows(t.history, b))
  }

  function ExpiredRows(history: seq<HistoryRow>, b: int): nat {
    if history == [] then 0
    else
      var row := history[|history| - 1];
      ExpiredRows(history[..|history| - 1], b) + if row.bookingId == b && row.reason == EXPIRED then 1 else 0
  }

  /** Events of booking b. */
  function Expiries(log: seq<Event>, b: int): nat {
    if log == [] then 0
    else Expiries(log[..|log| - 1], b) + if log[|log| - 1].id == b then 1 else 0
  }

  ghost predicate OnceInvariant(s: State, rows: int -> nat) {
    && (forall e :: e in s.log ==> Expirable(e.statusAtCommit))
    && forall b: int ::
         && Expiries(s.log, b) <= 1
         && (Expiries(s.log, b) == 1 ==> b in s.t.bookings && s.t.bookings[b].status == Cancelled)
         && ExpiredRows(s.t.history, b) == rows(b) + Expiries(s.log, b)
  }

  /** A transaction either changes nothing or cancels an expirable booking and adds one history row. */
  lemma CommitEffect(s: State, s': State, j: nat, first: Option<int>)
    requires CommitStep(s, s', j, first)
    ensures j < |s.jobs| && s.jobs[j].HasRead? && (s'.log == s.log ==> s'.t == s.t)
    ensures s'.log != s.log ==>
      && var id := s.jobs[j].id;
      && id in s.t.bookings && Expirable(s.t.bookings[id].status)
      && |s'.log| == |s.log| + 1 && s'.log[..|s.log|] == s.log
      && s'.log[|s.log|].id == id && s'.log[|s.log|].statusAtCommit == s.t.bookings[id].status
      && s'.t.bookings == s.t.bookings[id := s.t.bookings[id].(status := Cancelled)]
      && |s'.t.history| == |s.t.history| + 1 && s'.t.history[..|s.t.history|] == s.t.history
      && s'.t.history[|s.t.history|].bookingId == id && s'.t.history[|s.t.history|].reason == EXPIRED
  {
  }

  /** What a winning transaction takes back is what its event says: one use of the voucher it names together with one
      redemption row of this booking, and exactly the seats that go from LOCKED to AVAILABLE. */
  lemma CommitReleases(s: State, s': State, j: nat, first: Option<int>)
    requires CommitStep(s, s', j, first) && s'.log != s.log
    ensures |s'.log| == |s.log| + 1 && s'.log[..|s.log|] == s.log
    ensures var e := s'.log[|s.log|];
      && s'.t.vouchers.Keys == s.t.vouchers.Keys
      && (forall v :: v in s.t.vouchers ==> s'.t.vouchers[v] == s.t.vouchers[v] - if e.voucher == Some(v) then 1 else 0)
      && (e.voucher.None? ==> s'.t.redemptions == s.t.redemptions)
      && (e.voucher.Some? ==>
          && first.Some? && first.value in s.t.redemptions
          && s.t.redemptions[first.value] == Redemption(e.id, e.voucher.value)
          && s'.t.redemptions == s.t.redemptions - {first.value})
    ensures var e := s'.log[|s.log|];
      && s'.t.seats.Keys == s.t.seats.Keys
      && e.freed == (set x | x in s.t.seats && s.t.seats[x].status == Locked && s'.t.seats[x].status == Available)
      && forall x :: x in s.t.seats && x !in e.freed ==> s'.t.seats[x] == s.t.seats[x]
  {
  }

  /** Nothing is taken back outside such an event: any other step is the environment's or changes no table. */
  lemma OnlyEventsRelease(s: State, s': State, env: (Tables, Tables) -> bool)
    requires Step(s, s', env)
    ensures s'.t == s.t || env(s.t, s'.t) || (|s'.log| == |s.log| + 1 && s'.log[..|s.log|] == s.log)
  {
    if j: nat, first: Option<int> :| CommitStep(s, s', j, first) {
      CommitEffect(s, s', j, first);
    }
  }

  lemma CommitKeepsOnce(s: State, s': State, j: nat, first: Option<int>, rows: int -> nat)
    requires OnceInvariant(s, rows) && CommitStep(s, s', j, first)
    ensures OnceInvariant(s', rows)
  {
    hide CommitStep;
    CommitEffect(s, s', j, first);
    var id := s.jobs[j].id;
    if s'.log != s.log {
      assert s'.log == s.log + [s'.log[|s.log|]];
      assert Expiries(s.log, id) == 0;
    }
  }

  /** Over every run, whatever the other actors do within the hypothesis: each booking is cancelled by expiry at
      most once, only out of DRAFT or PENDING_PAYMENT, it stays cancelled, and it gets one history row per expiry. */
  lemma {:induction false} ExpiredAtMostOnce(run: seq<State>, env: (Tables, Tables) -> bool, i: nat)
    requires Run(run, env) && i < |run|
    requires forall t, t' :: env(t, t') ==> KeepsCancelled(t, t')
    ensures OnceInvariant(run[i], (b: int) => ExpiredRows(run[0].t.history, b))
  {
    var rows := (b: int) => ExpiredRows(run[0].t.history, b);
    if i > 0 {
      ExpiredAtMostOnce(run, env, i - 1);
      var s, s' := run[i - 1], run[i];
      assert Step(s, s', env);
      if j: nat, first: Option<int> :| CommitStep(s, s', j, first) {
        CommitKeepsOnce(s, s', j, first, rows);
      }
    }
  }

  /** Events of booking b that took back a voucher. */
  function VoucherReleases(log: seq<Event>, b: int): nat {
    if log == [] then 0
    else
      var e := log[|log| - 1];
      VoucherReleases(log[..|log| - 1], b) + if e.id == b && e.voucher.Some? then 1 else 0
  }

  /** Events of booking b that freed some seat. */
  function SeatReleases(log: seq<Event>, b: int): nat {
    if log == [] then 0
    else
      var e := log[|log| - 1];
      SeatReleases(log[..|log| - 1], b) + if e.id == b && e.freed != {} then 1 else 0
  }

  lemma {:induction false} ReleasesAreExpiries(log: seq<Event>, b: int)
    ensures VoucherReleases(log, b) <= Expiries(log, b) && SeatReleases(log, b) <= Expiries(log, b)
  {
    if log != [] { ReleasesAreExpiries(log[..|log| - 1], b); }
  }

  /** Over every run: at most one voucher release and at most one seat release per booking. */
  lemma ReleasedAtMostOnce(run: seq<State>, env: (Tables, Tables) -> bool, i: nat, b: int)
    requires Run(run, env) && i < |run|
    requires forall t, t' :: env(t, t') ==> KeepsCancelled(t, t')
    ensures VoucherReleases(run[i].log, b) <= 1 && SeatReleases(run[i].log, b) <= 1
  {
    hide Run, KeepsCancelled;
    ExpiredAtMostOnce(run, env, i);
    ReleasesAreExpiries(run[i].log, b);
  }

  // ----- Vouchers ------------------------------------------------------------------------

  function RedemptionsOf(t: Tables, v: int): set<int> {
    set r | r in t.redemptions && t.redemptions[r].voucherId == v
  }

  /** Used count minus redemption rows. */
  function Balance(t: Tables, v: int): int
    requires v in t.vouchers
  {
    t.vouchers[v] - |RedemptionsOf(t, v)|
  }

  lemma CommitKeepsBalance(t: Tables, id: int, snapshot: Booking, first: Option<int>, v: int)
    requires v in t.vouchers && IsFirst(t, id, first)
    ensures var t' := Commit(t, id, snapshot, first).0; v in t'.vouchers && Balance(t', v) == Balance(t, v)
  {
    var (t', outcome) := Commit(t, id, snapshot, first);
    if outcome == Won && first.Some? {
      var r := first.value;
      if t.redemptions[r].voucherId == v {
        assert RedemptionsOf(t', v) == RedemptionsOf(t, v) - {r};
      } else {
        assert RedemptionsOf(t', v) == RedemptionsOf(t, v);
      }
    }
  }

  /** The environment keeps every voucher and its balance, as applying a voucher does (one row, one count). */
  ghost predicate KeepsBalances(t: Tables, t': Tables) {
    forall v :: v in t.vouchers ==> v in t'.vouchers && Balance(t', v) == Balance(t, v)
  }

  /** Conservation over every run; in particular a voucher whose count covers its rows always has a count that
      covers them, and never a negative one. */
  lemma {:induction false} VouchersConserved(run: seq<State>, env: (Tables, Tables) -> bool, i: nat, v: int)
    requires Run(run, env) && i < |run| && v in run[0].t.vouchers
    requires forall t, t' :: env(t, t') ==> KeepsBalances(t, t')
    ensures v in run[i].t.vouchers && Balance(run[i].t, v) == Balance(run[0].t, v)
    ensures Balance(run[0].t, v) >= 0 ==> run[i].t.vouchers[v] >= |RedemptionsOf(run[i].t, v)| >= 0
  {
    if i > 0 {
      VouchersConserved(run, env, i - 1, v);
      var s, s' := run[i - 1], run[i];
      assert Step(s, s', env);
      if j: nat, first: Option<int> :| CommitStep(s, s', j, first) {
        CommitKeepsBalance(s.t, s.jobs[j].id, s.jobs[j].snapshot, first, v);
      }
    }
  }

  /** Events that took back a use of voucher v. */
  function Decrements(log: seq<Event>, v: int): nat {
    if log == [] then 0
    else Decrements(log[..|log| - 1], v) + if log[|log| - 1].voucher == Some(v) then 1 else 0
  }

  ghost predicate KeepsCounts(t: Tables, t': Tables) {
    forall v :: v in t.vouchers ==> v in t'.vouchers && t'.vouchers[v] == t.vouchers[v]
  }

  /** Over every run whose environment leaves used counts alone, a voucher has lost one use per event that names it. */
  lemma {:induction false} CountsFollowEvents(run: seq<State>, env: (Tables, Tables) -> bool, i: nat, v: int)
    requires Run(run, env) && i < |run| && v in run[0].t.vouchers
    requires forall t, t' :: env(t, t') ==> KeepsCounts(t, t')
    ensures v in run[i].t.vouchers && run[i].t.vouchers[v] == run[0].t.vouchers[v] - Decrements(run[i].log, v)
  {
    hide CommitStep;
    if i > 0 {
      CountsFollowEvents(run, env, i - 1, v);
      var s, s' := run[i - 1], run[i];
      assert Step(s, s', env);
      if j: nat, first: Option<int> :| CommitStep(s, s', j, first) {
        CommitEffect(s, s', j, first);
        if s'.log != s.log { CommitReleases(s, s', j, first); }
      }
    }
  }

  /** The redemption step of applying a voucher: one new row and one more use. */
  function ApplyVoucher(t: Tables, r: int, bookingId: int, v: int): Tables
    requires v in t.vouchers
  {
    t.(redemptions := t.redemptions[r := Redemption(bookingId, v)], vouchers := t.vouchers[v := t.vouchers[v] + 1])
  }

  lemma ApplyKeepsBalance(t: Tables, r: int, bookingId: int, v: int, w: int)
    requires r !in t.redemptions && v in t.vouchers && w in t.vouchers
    ensures Balance(ApplyVoucher(t, r, bookingId, v), w) == Balance(t, w)
  {
    hide RedemptionsOf;
    RowsAfterApply(t, r, bookingId, v, w);
  }

  lemma RowsAfterApply(t: Tables, r: int, bookingId: int, v: int, w: int)
    requires r !in t.redemptions && v in t.vouchers
    ensures r !in RedemptionsOf(t, w)
    ensures RedemptionsOf(ApplyVoucher(t, r, bookingId, v), w) == RedemptionsOf(t, w) + if w == v then {r} else {}
  {
    var rows := t.redemptions[r := Redemption(bookingId, v)];
    assert ApplyVoucher(t, r, bookingId, v).redemptions == rows;
    assert forall q :: q in rows && rows[q].voucherId == w <==>
      (q in t.redemptions && t.redemptions[q].voucherId == w) || (q == r && w == v);
  }

  // ----- Seats ----------------------------------------------------------------------------

  predicate Live(b: Booking) {
    b.status != Cancelled
  }

  ghost predicate NoSharedSeats(t: Tables) {
    forall a, b :: a in t.bookings && b in t.bookings && a != b && Live(t.bookings[a]) && Live(t.bookings[b]) ==>
      SeatIds(t.bookings[a]) !! SeatIds(t.bookings[b])
  }

  /** A winning expiry releases all of its booking's current locks exactly when none was added since the read. */
  lemma ReleaseCompleteIff(t: Tables, id: int, snapshot: Booking, first: Option<int>)
    requires Commit(t, id, snapshot, first).1 == Won
    ensures var t' := Commit(t, id, snapshot, first).0;
      (forall x :: x in SeatIds(t.bookings[id]) && x in t.seats ==> t'.seats[x].status != Locked)
      <==> (forall x :: x in SeatIds(t.bookings[id]) && x in t.seats && t.seats[x].status == Locked ==>
              x in SeatIds(snapshot))
  {
    var t' := Commit(t, id, snapshot, first).0;
    assert forall x :: x in t.seats ==>
      (t'.seats[x].status == Locked <==> t.seats[x].status == Locked && x !in SeatIds(snapshot));
  }

  /** It leaves the locks of another booking alone exactly when it does not hold any of them in its snapshot. */
  lemma OtherLocksKeptIff(t: Tables, id: int, snapshot: Booking, first: Option<int>, other: Booking)
    requires Commit(t, id, snapshot, first).1 == Won
    ensures var t' := Commit(t, id, snapshot, first).0;
      (forall x :: x in SeatIds(other) && x in t.seats ==> t'.seats[x] == t.seats[x])
      <==> (forall x :: x in SeatIds(other) && x in SeatIds(snapshot) && x in t.seats ==> t.seats[x].status != Locked)
  {
    var t' := Commit(t, id, snapshot, first).0;
    assert forall x :: x in t.seats ==>
      (t'.seats[x] != t.seats[x] <==> t.seats[x].status == Locked && x in SeatIds(snapshot));
  }

  /** Seat release as intended: with a fresh snapshot and no shared seats, the booking's locks go, the locks of
      every other live booking stay, and a seat that is not LOCKED never changes. */
  lemma FreshReleaseIsExact(t: Tables, id: int, snapshot: Booking, first: Option<int>)
    requires Commit(t, id, snapshot, first).1 == Won && NoSharedSeats(t)
    requires SeatIds(t.bookings[id]) == SeatIds(snapshot)
    ensures var t' := Commit(t, id, snapshot, first).0;
      && t'.seats.Keys == t.seats.Keys
      && (forall x :: x in SeatIds(t.bookings[id]) && x in t.seats ==> t'.seats[x].status != Locked)
      && (forall b, x ::
            b in t.bookings && b != id && Live(t.bookings[b]) && x in SeatIds(t.bookings[b]) && x in t.seats ==>
            t'.seats[x] == t.seats[x])
      && (forall x :: x in t.seats && t.seats[x].status != Locked ==> t'.seats[x] == t.seats[x])
  {
    ReleaseCompleteIff(t, id, snapshot, first);
    forall b | b in t.bookings && b != id && Live(t.bookings[b])
      ensures forall x :: x in SeatIds(t.bookings[b]) && x in t.seats ==>
        Commit(t, id, snapshot, first).0.seats[x] == t.seats[x]
    {
      OtherLocksKeptIff(t, id, snapshot, first, t.bookings[b]);
    }
  }

  /** Every pending read still knows the seats of its booking, and no two live bookings hold one seat. */
  ghost predicate ReadsAreFresh(s: State) {
    && NoSharedSeats(s.t)
    && forall j :: 0 <= j < |s.jobs| && s.jobs[j].HasRead? ==>
         s.jobs[j].id in s.t.bookings && SeatIds(s.t.bookings[s.jobs[j].id]) == SeatIds(s.jobs[j].snapshot)
  }

  /** A move of the environment that leaves the seats of bookings with a pending read alone and shares no seat. */
  ghost predicate KeepsPendingSeats(s: State, s': State) {
    && (NoSharedSeats(s.t) ==> NoSharedSeats(s'.t))
    && forall j :: 0 <= j < |s.jobs| && s.jobs[j].HasRead? && s.jobs[j].id in s.t.bookings ==>
         var id := s.jobs[j].id;
         id in s'.t.bookings && SeatIds(s'.t.bookings[id]) == SeatIds(s.t.bookings[id])
  }

  lemma CommitKeepsFresh(s: State, s': State, j: nat, first: Option<int>)
    requires ReadsAreFresh(s) && CommitStep(s, s', j, first)
    ensures ReadsAreFresh(s')
  {
    hide CommitStep, SeatIds;
    SameSeatIds(s, s', j, first);
  }

  /** A transaction keeps every booking's seat ids and revives no booking. */
  lemma SameSeatIds(s: State, s': State, j: nat, first: Option<int>)
    requires CommitStep(s, s', j, first)
    ensures j < |s.jobs| && s'.jobs == s.jobs[j := Done] && s'.t.bookings.Keys == s.t.bookings.Keys
    ensures forall b :: b in s.t.bookings ==>
      SeatIds(s'.t.bookings[b]) == SeatIds(s.t.bookings[b]) && (Live(s'.t.bookings[b]) ==> Live(s.t.bookings[b]))
  {
    hide CommitStep;
    CommitEffect(s, s', j, first);
    CommitJobs(s, s', j, first);
  }

  lemma CommitJobs(s: State, s': State, j: nat, first: Option<int>)
    requires CommitStep(s, s', j, first)
    ensures j < |s.jobs| && s'.jobs == s.jobs[j := Done]
  {
  }

  lemma {:induction false} ReadsStayFresh(run: seq<State>, env: (Tables, Tables) -> bool, i: nat)
    requires Run(run, env) && i < |run| && ReadsAreFresh(run[0])
    requires forall k :: 0 <= k < |run| - 1 && EnvStep(run[k], run[k + 1], env) ==>
      KeepsPendingSeats(run[k], run[k + 1])
    ensures ReadsAreFresh(run[i])
  {
    if i > 0 {
      ReadsStayFresh(run, env, i - 1);
      var s, s' := run[i - 1], run[i];
      assert Step(s, s', env);
      if j: nat, first: Option<int> :| CommitStep(s, s', j, first) {
        CommitKeepsFresh(s, s', j, first);
      }
    }
  }

  /** Over every run in which no booking's seats change between its read and its transaction, each winning expiry
      releases exactly the locks of its own booking. */
  lemma ReleasesAreExact(run: seq<State>, env: (Tables, Tables) -> bool, i: nat, j: nat, first: Option<int>)
    requires Run(run, env) && i < |run| - 1 && ReadsAreFresh(run[0])
    requires forall k :: 0 <= k < |run| - 1 && EnvStep(run[k], run[k + 1], env) ==>
      KeepsPendingSeats(run[k], run[k + 1])
    requires CommitStep(run[i], run[i + 1], j, first) && run[i + 1].log != run[i].log
    ensures var t, t', id := run[i].t, run[i + 1].t, run[i].jobs[j].id;
      && t'.seats.Keys == t.seats.Keys && id in t.bookings
      && (forall x :: x in SeatIds(t.bookings[id]) && x in t.seats ==> t'.seats[x].status != Locked)
      && (forall b, x ::
            b in t.bookings && b != id && Live(t.bookings[b]) && x in SeatIds(t.bookings[b]) && x in t.seats ==>
            t'.seats[x] == t.seats[x])
      && (forall x :: x in t.seats && t.seats[x].status != Locked ==> t'.seats[x] == t.seats[x])
  {
    hide Run, Commit;
    ReadsStayFresh(run, env, i);
    FreshReleaseIsExact(run[i].t, run[i].jobs[j].id, run[i].jobs[j].snapshot, first);
  }

  // ----- What can happen between the read and the transaction -------------------------------

  /** The transaction of seat selection: the version-checked update, then the passenger's assignment. An unknown
      passenger rolls it back. That the booking is a DRAFT was checked earlier, outside the transaction. */
  function SelectSeat(t: Tables, b: int, passenger: nat, x: int, version: int): (Tables, bool) {
    if x !in t.seats || t.seats[x].version != version || t.seats[x].status != Available then (t, false)
    else if b !in t.bookings || passenger >= |t.bookings[b].passengerSeats| then (t, false)
    else
      var booking := t.bookings[b].(passengerSeats := t.bookings[b].passengerSeats[passenger := Some(x)]);
      (t.(seats := t.seats[x := Seat(Locked, version + 1)], bookings := t.bookings[b := booking]), true)
  }

  ghost predicate SelectsSeat(t: Tables, t': Tables) {
    exists b, passenger: nat, x, version :: t' == SelectSeat(t, b, passenger, x, version).0
  }

  /** A draft goes on to payment. */
  function RequestPayment(t: Tables, b: int): Tables {
    if b in t.bookings && t.bookings[b].status == Draft
    then t.(bookings := t.bookings[b := t.bookings[b].(status := PendingPayment)]) else t
  }

  ghost predicate RequestsPayment(t: Tables, t': Tables) {
    exists b :: t' == RequestPayment(t, b)
  }

  /** Any move of the environment can fall between a job's read and its transaction. */
  lemma OneJobRun(t: Tables, t': Tables, id: int, first: Option<int>,
                  env: (Tables, Tables) -> bool) returns (run: seq<State>)
    requires id in t.bookings && Expirable(t.bookings[id].status) && env(t, t')
    requires IsFirst(t', id, first) && Commit(t', id, t.bookings[id], first).1 == Won
    ensures |run| == 5 && Run(run, env)
    ensures run[0].t == run[1].t == run[2].t == t && run[3].t == t'
    ensures run[4].t == Commit(t', id, t.bookings[id], first).0
    ensures |run[4].log| == 1 && run[4].log[0].id == id && run[4].log[0].statusAtCommit == t'.bookings[id].status
  {
    hide Commit, IsFirst;
    var snapshot := t.bookings[id];
    Winner(t', id, snapshot, first);
    var s0 := State(t, [], []);
    var s1 := s0.(jobs := [Waiting(id)]);
    var s2 := s0.(jobs := [HasRead(id, snapshot)]);
    var s3 := s2.(t := t');
    var e := Event(id, t'.bookings[id].status,
                   if first.Some? then Some(t'.redemptions[first.value].voucherId) else None, Freed(t', snapshot));
    var s4 := State(Commit(t', id, snapshot, first).0, [Done], [e]);
    run := [s0, s1, s2, s3, s4];
    assert EnqueueStep(s0, s1, id);
    assert ReadStep(s1, s2, 0);
    assert EnvStep(s2, s3, env);
    assert CommitStep(s3, s4, 0, first);
  }

  lemma Winner(t: Tables, id: int, snapshot: Booking, first: Option<int>)
    requires Commit(t, id, snapshot, first).1 == Won
    ensures id in t.bookings && (first.Some? ==> first.value in t.redemptions)
  {
  }

  /** A run in which a seat chosen between the read and the transaction stays LOCKED by a cancelled booking. */
  lemma StaleReadLeaksLock() returns (run: seq<State>)
    ensures |run| == 5 && Run(run, SelectsSeat)
    ensures var t := run[4].t;
      && 1 in t.bookings && t.bookings[1].status == Cancelled && SeatIds(t.bookings[1]) == {7}
      && 7 in t.seats && t.seats[7].status == Locked
  {
    var snapshot := Booking(Draft, [None]);
    var t := Tables(map[1 := snapshot], map[], map[], map[7 := Seat(Available, 0)], []);
    var t' := SelectSeat(t, 1, 0, 7, 0).0;
    assert SelectsSeat(t, t');
    run := OneJobRun(t, t', 1, None, SelectsSeat);
    var current := run[4].t.bookings[1];
    assert current.passengerSeats[0] == Some(7);
    assert SeatIds(current) == {7} && SeatIds(snapshot) == {};
  }

  // ----- The history row -----------------------------------------------------------------------

  /** The history row names the status at the read. It is the status that the transaction leaves exactly if that
      did not change in between. */
  lemma HistoryStatusIff(s: State, s': State, j: nat, first: Option<int>)
    requires CommitStep(s, s', j, first) && s'.log != s.log
    ensures |s'.t.history| == |s.t.history| + 1 && |s'.log| == |s.log| + 1 && s.jobs[j].id in s.t.bookings
    ensures s'.t.history[|s.t.history|].fromStatus == s'.log[|s.log|].statusAtCommit
        <==> s.jobs[j].snapshot.status == s.t.bookings[s.jobs[j].id].status
  {
    CommitEffect(s, s', j, first);
  }

  /** A run in which the history says DRAFT of a booking that was cancelled out of PENDING_PAYMENT. */
  lemma StaleHistoryStatus() returns (run: seq<State>)
    ensures |run| == 5 && Run(run, RequestsPayment)
    ensures |run[4].log| == 1 && run[4].log[0].statusAtCommit == PendingPayment
    ensures run[4].t.history == [HistoryRow(1, Draft, Cancelled, EXPIRED)]
  {
    var snapshot := Booking(Draft, []);
    var t := Tables(map[1 := snapshot], map[], map[], map[], []);
    var t' := RequestPayment(t, 1);
    assert RequestsPayment(t, t');
    run := OneJobRun(t, t', 1, None, RequestsPayment);
  }

  // ----- Seat versions -------------------------------------------------------------------------

  /** Every change of a seat raises its version. */
  ghost predicate BumpsVersions(t: Tables, t': Tables) {
    forall x :: x in t.seats ==>
      x in t'.seats && (t'.seats[x] == t.seats[x] || t'.seats[x].version > t.seats[x].version)
  }

  /** Seat selection meets the hypotheses that the theorems make of the environment; it succeeds only on the version
      it names, and then the seat is LOCKED and the passenger's. */
  lemma SelectMeetsHypotheses(t: Tables, b: int, passenger: nat, x: int, version: int)
    ensures var (t', done) := SelectSeat(t, b, passenger, x, version);
      && BumpsVersions(t, t') && KeepsCancelled(t, t') && KeepsBalances(t, t') && KeepsCounts(t, t')
      && (done ==> x in t.seats && t.seats[x].version == version && t'.seats[x].status == Locked
                   && b in t'.bookings && x in SeatIds(t'.bookings[b]))
  {
    hide SeatIds;
    var (t', done) := SelectSeat(t, b, passenger, x, version);
    if done { Assigned(t'.bookings[b], passenger, x); }
    assert forall v :: RedemptionsOf(t', v) == RedemptionsOf(t, v);
  }

  lemma Assigned(booking: Booking, passenger: nat, x: int)
    requires passenger < |booking.passengerSeats| && booking.passengerSeats[passenger] == Some(x)
    ensures x in SeatIds(booking)
  {
  }

  /** One version step on each locked seat of the snapshot, none anywhere else. */
  lemma CommitVersions(t: Tables, id: int, snapshot: Booking, first: Option<int>)
    ensures var (t', outcome) := Commit(t, id, snapshot, first);
      && BumpsVersions(t, t') && t'.seats.Keys == t.seats.Keys
      && forall x :: x in t.seats ==>
           t'.seats[x].version == t.seats[x].version + if outcome == Won && x in Freed(t, snapshot) then 1 else 0
  {
  }

  lemma {:induction false} VersionsGrow(run: seq<State>, env: (Tables, Tables) -> bool, i: nat, k: nat, x: int)
    requires Run(run, env) && i <= k < |run| && x in run[i].t.seats
    requires forall t, t' :: env(t, t') ==> BumpsVersions(t, t')
    ensures x in run[k].t.seats && run[k].t.seats[x].version >= run[i].t.seats[x].version
    decreases k
  {
    if i < k {
      VersionsGrow(run, env, i, k - 1, x);
      var s, s' := run[k - 1], run[k];
      assert Step(s, s', env);
      if j: nat, first: Option<int> :| CommitStep(s, s', j, first) {
        CommitVersions(s.t, s.jobs[j].id, s.jobs[j].snapshot, first);
      }
    }
  }

  lemma StepsOf(run: seq<State>, env: (Tables, Tables) -> bool, r: nat)
    requires Run(run, env) && r < |run| - 1
    ensures Step(run[r], run[r + 1], env)
  {
  }

  /** A version read before a release is useless after it: the version-checked update fails at every later point. */
  lemma StaleVersionRejected(run: seq<State>, env: (Tables, Tables) -> bool, i: nat, r: nat, k: nat, x: int, b: int,
                             passenger: nat)
    requires Run(run, env) && i <= r < k < |run| && x in run[i].t.seats
    requires forall t, t' :: env(t, t') ==> BumpsVersions(t, t')
    requires |run[r + 1].log| == |run[r].log| + 1 && x in run[r + 1].log[|run[r].log|].freed
    ensures !SelectSeat(run[k].t, b, passenger, x, run[i].t.seats[x].version).1
  {
    hide Run, Commit;
    assert Step(run[r], run[r + 1], env) by { StepsOf(run, env, r); }
    VersionsGrow(run, env, i, r, x);
    var s, s' := run[r], run[r + 1];
    var j: nat, first: Option<int> :| CommitStep(s, s', j, first);
    CommitVersions(s.t, s.jobs[j].id, s.jobs[j].snapshot, first);
    VersionsGrow(run, env, r + 1, k, x);
  }
}
