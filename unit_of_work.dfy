/**
 * The unit of work (src/Infrastructure/Repositories/UnitOfWork.cs) together
 * with the state of the database context it wraps: the committed rows,
 * the change tracker's pending writes, the one current transaction slot
 * and the statements sent to the server. The unique indexes and keys of
 * the schema are what makes a save fail.
 */
module Persistence {
  import opened Wrappers
  import opened Guids
  import opened Errors
  import opened Seats
  import opened Tickets
  import opened Passengers
  import opened Schedules
  import opened Buses

  /** `System.Data.IsolationLevel`; `Undeclared` is any other value of the enum's type. */
  datatype IsolationLevel =
    | Unspecified | Chaos | ReadUncommitted | ReadCommitted | RepeatableRead | Serializable | Snapshot
    | Undeclared(value: int)

  /** The level `BeginTransactionAsync` uses when none is given. */
  const DefaultIsolation: IsolationLevel := ReadCommitted

  /** The five named levels the server understands. */
  predicate IsNamedLevel(l: IsolationLevel) {
    l == ReadUncommitted || l == ReadCommitted || l == RepeatableRead || l == Serializable || l == Snapshot
  }

  /** The switch that turns a level into SQL: total, drawing only on five
      fixed keywords, each named level getting its own and every other
      value falling back to READ COMMITTED. */
  function IsolationKeyword(l: IsolationLevel): (k: string)
    ensures k in {"READ UNCOMMITTED", "READ COMMITTED", "REPEATABLE READ", "SERIALIZABLE", "SNAPSHOT"}
    ensures !IsNamedLevel(l) ==> k == "READ COMMITTED"
  {
    match l
    case ReadUncommitted => "READ UNCOMMITTED"
    case ReadCommitted => "READ COMMITTED"
    case RepeatableRead => "REPEATABLE READ"
    case Serializable => "SERIALIZABLE"
    case Snapshot => "SNAPSHOT"
    case _ => "READ COMMITTED"
  }

  /** Distinct named levels get distinct keywords. */
  lemma NamedLevelsAreDistinguished(a: IsolationLevel, b: IsolationLevel)
    requires IsNamedLevel(a) && IsNamedLevel(b) && a != b
    ensures IsolationKeyword(a) != IsolationKeyword(b)
  {
  }

  function IsolationStatement(l: IsolationLevel): string {
    "SET TRANSACTION ISOLATION LEVEL " + IsolationKeyword(l)
  }

  /** What the context sends to the server, in order. */
  datatype DbCommand = ExecuteSql(sql: string) | BeginTx | CommitTx | RollbackTx

  /** The rows of the tables the booking flow touches, keyed by primary key;
      passengers keep their row order, which a first-match query depends on. */
  datatype Store = Store(
    schedules: map<Guid, ScheduleRecord>,
    seats: map<Guid, SeatRecord>,
    passengers: seq<PassengerRecord>,
    tickets: map<Guid, TicketRecord>
  )

  /** What the schedule queries load: a schedule with its bus and its seats,
      in the order the query returns them. */
  datatype ScheduleWithSeats = ScheduleWithSeats(schedule: ScheduleRecord, bus: BusRecord, seats: seq<SeatRecord>)

  /** A write the change tracker holds until SaveChanges: an added passenger
      or ticket, or a seat marked as modified. */
  datatype Change = InsertPassenger(passenger: PassengerRecord) | InsertTicket(ticket: TicketRecord) | UpdateSeat(seat: SeatRecord)

  const SaveFailedMessage := "An error occurred while saving the entity changes. See the inner exception for details."

  predicate HasPassenger(ps: seq<PassengerRecord>, id: Guid) {
    exists i :: 0 <= i < |ps| && ps[i].id == id
  }

  /** Whether a value is too long for a `varchar(n)` column. The server
      refuses it only when a character past the limit is not a space; a
      value that is over-long by spaces alone is cut to the limit. */
  predicate Overflows(text: string, n: nat) {
    exists i :: n <= i < |text| && text[i] != ' '
  }

  /** The text a `varchar(n)` column keeps of an accepted value. */
  function Stored(text: string, n: nat): (r: string)
    ensures |r| <= n && (|text| <= n ==> r == text)
    ensures !Overflows(text, n) ==> r + seq(|text| - |r|, _ => ' ') == text
  {
    if |text| <= n then text else text[..n]
  }

  /** The column limits of the passenger table: name and e-mail at most 200
      characters, mobile number at most 20. */
  predicate PassengerFits(p: PassengerRecord) {
    !Overflows(p.name, 200) && !Overflows(p.mobileNumber, 20) && (p.email.Some? ==> !Overflows(p.email.value, 200))
  }

  function StoredPassenger(p: PassengerRecord): PassengerRecord {
    p.(name := Stored(p.name, 200), mobileNumber := Stored(p.mobileNumber, 20),
       email := if p.email.Some? then Some(Stored(p.email.value, 200)) else None)
  }

  /** The largest amount a `decimal(10,2)` column holds is 99999999.99; the
      server rounds to two places first, so what rounds past it overflows. */
  const AmountBound: real := 99999999.995

  /** The column limits of the ticket table: boarding and dropping points at
      most 200 characters, the booking reference at most 50, and an amount
      that fits `decimal(10,2)`. */
  predicate TicketFits(t: TicketRecord) {
    !Overflows(t.boardingPoint, 200) && !Overflows(t.droppingPoint, 200) && !Overflows(t.bookingReference, 50) &&
    -AmountBound < t.totalAmount < AmountBound
  }

  function StoredTicket(t: TicketRecord): TicketRecord {
    t.(boardingPoint := Stored(t.boardingPoint, 200), droppingPoint := Stored(t.droppingPoint, 200),
       bookingReference := Stored(t.bookingReference, 50))
  }

  /** The column limits of the seat table: seat number and row at most 10 characters. */
  predicate SeatFits(s: SeatRecord) {
    !Overflows(s.seatNumber, 10) && !Overflows(s.row, 10)
  }

  function StoredSeat(s: SeatRecord): SeatRecord {
    s.(seatNumber := Stored(s.seatNumber, 10), row := Stored(s.row, 10))
  }

  /** Every stored text is within its column's length. */
  predicate WithinColumns(st: Store) {
    (forall k :: k in st.seats ==> StoredSeat(st.seats[k]) == st.seats[k]) &&
    (forall k :: k in st.tickets ==> StoredTicket(st.tickets[k]) == st.tickets[k]) &&
    (forall i :: 0 <= i < |st.passengers| ==> StoredPassenger(st.passengers[i]) == st.passengers[i])
  }

  /** Whether the schema lets a ticket row in: a new primary key, existing
      seat and passenger rows, a booking reference and a seat no other
      ticket has, and values the columns accept. */
  predicate TicketAdmissible(st: Store, t: TicketRecord) {
    t.id !in st.tickets && t.seatId in st.seats && HasPassenger(st.passengers, t.passengerId) &&
    TicketFits(t) &&
    forall k :: k in st.tickets ==>
      st.tickets[k].bookingReference != StoredTicket(t).bookingReference && st.tickets[k].seatId != t.seatId
  }

  /** Whether the schema lets a seat row be rewritten: an existing key, an
      existing schedule, values the columns accept, and a seat number no
      other seat of the same schedule has. */
  predicate SeatAdmissible(st: Store, s: SeatRecord) {
    s.id in st.seats && s.busScheduleId in st.schedules && SeatFits(s) &&
    forall k :: k in st.seats && k != s.id && st.seats[k].busScheduleId == s.busScheduleId ==>
      st.seats[k].seatNumber != StoredSeat(s).seatNumber
  }

  /** One tracked write against the rows, refused when it would break a key,
      a foreign key, a unique index or a column limit; an accepted row is
      stored with its texts cut to their columns. */
  function ApplyChange(st: Store, c: Change): (r: Result<Store, Exception>)
    ensures r.Failure? ==> r.error == DbUpdateException(SaveFailedMessage)
    ensures r.Success? ==> r.value.schedules == st.schedules
    ensures c.InsertPassenger? ==>
      (r.Success? <==> !HasPassenger(st.passengers, c.passenger.id) && PassengerFits(c.passenger))
    ensures c.InsertTicket? ==> (r.Success? <==> TicketAdmissible(st, c.ticket))
    ensures c.UpdateSeat? ==> (r.Success? <==> SeatAdmissible(st, c.seat))
  {
    match c
    case InsertPassenger(p) =>
      if HasPassenger(st.passengers, p.id) || !PassengerFits(p) then Failure(DbUpdateException(SaveFailedMessage))
      else Success(st.(passengers := st.passengers + [StoredPassenger(p)]))
    case InsertTicket(t) =>
      if !TicketAdmissible(st, t) then Failure(DbUpdateException(SaveFailedMessage))
      else Success(st.(tickets := st.tickets[t.id := StoredTicket(t)]))
    case UpdateSeat(s) =>
      if !SeatAdmissible(st, s) then Failure(DbUpdateException(SaveFailedMessage))
      else Success(st.(seats := st.seats[s.id := StoredSeat(s)]))
  }

  /** A mobile number that runs past its 20-character column by trailing
      spaces alone is accepted, and the spaces past the column are dropped. */
  lemma SpacePaddedMobileNumberIsCut(st: Store, p: PassengerRecord, pad: nat)
    requires !HasPassenger(st.passengers, p.id) && PassengerFits(p) && |p.mobileNumber| == 20
    ensures var padded := p.(mobileNumber := p.mobileNumber + seq(pad, _ => ' '));
      var r := ApplyChange(st, InsertPassenger(padded));
      r.Success? && r.value.passengers == st.passengers + [StoredPassenger(p)]
  {
    var padded := p.(mobileNumber := p.mobileNumber + seq(pad, _ => ' '));
    forall i | 20 <= i < |padded.mobileNumber| ensures padded.mobileNumber[i] == ' ' {
      assert padded.mobileNumber[i] == seq(pad, _ => ' ')[i - 20];
    }
    assert padded.mobileNumber[..20] == p.mobileNumber;
  }

  /** SaveChanges writes every tracked change or none of them. */
  function SaveAll(st: Store, cs: seq<Change>): Result<Store, Exception>
    decreases |cs|
  {
    if cs == [] then Success(st)
    else match ApplyChange(st, cs[0])
      case Failure(e) => Failure(e)
      case Success(st1) => SaveAll(st1, cs[1..])
  }

  /** The integrity the schema maintains: keys match their rows, every seat
      belongs to an existing schedule and no two seats of a schedule share a
      number, passenger keys are distinct, every ticket points at an existing
      seat and passenger, no two tickets share a booking reference or a seat,
      and every text fits its column. */
  predicate Integrity(st: Store) {
    SeatRows(st) &&
    (forall i, j :: 0 <= i < j < |st.passengers| ==> st.passengers[i].id != st.passengers[j].id) &&
    (forall k :: k in st.tickets ==>
       st.tickets[k].id == k && st.tickets[k].seatId in st.seats && HasPassenger(st.passengers, st.tickets[k].passengerId)) &&
    (forall k1, k2 :: k1 in st.tickets && k2 in st.tickets && k1 != k2 ==>
       st.tickets[k1].bookingReference != st.tickets[k2].bookingReference &&
       st.tickets[k1].seatId != st.tickets[k2].seatId) &&
    WithinColumns(st)
  }

  /** The seat table's part of the integrity: keys match their rows, every
      seat belongs to an existing schedule, and no two seats of a schedule
      share a number. */
  predicate SeatRows(st: Store) {
    (forall k :: k in st.seats ==> st.seats[k].id == k && st.seats[k].busScheduleId in st.schedules) &&
    (forall k1, k2 :: k1 in st.seats && k2 in st.seats && k1 != k2 ==>
       st.seats[k1].busScheduleId != st.seats[k2].busScheduleId || st.seats[k1].seatNumber != st.seats[k2].seatNumber)
  }

  lemma ApplyChangeKeepsIntegrity(st: Store, c: Change)
    requires Integrity(st) && ApplyChange(st, c).Success?
    ensures Integrity(ApplyChange(st, c).value)
  {
    match c
    case InsertPassenger(p) => InsertPassengerKeepsIntegrity(st, p);
    case InsertTicket(t) => InsertTicketKeepsIntegrity(st, t);
    case UpdateSeat(s) => UpdateSeatKeepsIntegrity(st, s);
  }

  lemma InsertPassengerKeepsIntegrity(st: Store, p: PassengerRecord)
    requires Integrity(st) && !HasPassenger(st.passengers, p.id)
    ensures Integrity(st.(passengers := st.passengers + [StoredPassenger(p)]))
  {
    var st1 := st.(passengers := st.passengers + [StoredPassenger(p)]);
    forall k | k in st1.tickets
      ensures HasPassenger(st1.passengers, st1.tickets[k].passengerId)
    {
      var i :| 0 <= i < |st.passengers| && st.passengers[i].id == st.tickets[k].passengerId;
      assert st1.passengers[i] == st.passengers[i];
    }
    forall i, j | 0 <= i < j < |st1.passengers| ensures st1.passengers[i].id != st1.passengers[j].id {
      if j == |st.passengers| {
        assert st.passengers[i].id != p.id;
      } else {
        assert st1.passengers[i] == st.passengers[i] && st1.passengers[j] == st.passengers[j];
      }
    }
    StoredTextIsKept(p.name, 200);
    StoredTextIsKept(p.mobileNumber, 20);
    if p.email.Some? {
      StoredTextIsKept(p.email.value, 200);
    }
    forall i | 0 <= i < |st1.passengers| ensures StoredPassenger(st1.passengers[i]) == st1.passengers[i] {
      if i < |st.passengers| {
        assert st1.passengers[i] == st.passengers[i];
      }
    }
  }

  lemma InsertTicketKeepsIntegrity(st: Store, t: TicketRecord)
    requires Integrity(st) && TicketAdmissible(st, t)
    ensures Integrity(st.(tickets := st.tickets[t.id := StoredTicket(t)]))
  {
    InsertTicketKeepsReferences(st, t);
    InsertTicketKeepsColumns(st, t);
  }

  /** The new ticket row meets its foreign keys and shares no reference or seat. */
  lemma InsertTicketKeepsReferences(st: Store, t: TicketRecord)
    requires Integrity(st) && TicketAdmissible(st, t)
    ensures var tickets := st.tickets[t.id := StoredTicket(t)];
      (forall k :: k in tickets ==>
         tickets[k].id == k && tickets[k].seatId in st.seats && HasPassenger(st.passengers, tickets[k].passengerId)) &&
      (forall k1, k2 :: k1 in tickets && k2 in tickets && k1 != k2 ==>
         tickets[k1].bookingReference != tickets[k2].bookingReference && tickets[k1].seatId != tickets[k2].seatId)
  {
    var tickets := st.tickets[t.id := StoredTicket(t)];
    forall k1, k2 | k1 in tickets && k2 in tickets && k1 != k2
      ensures tickets[k1].bookingReference != tickets[k2].bookingReference && tickets[k1].seatId != tickets[k2].seatId
    {
      if k1 == t.id {
        assert tickets[k2] == st.tickets[k2];
      } else if k2 == t.id {
        assert tickets[k1] == st.tickets[k1];
      } else {
        assert tickets[k1] == st.tickets[k1] && tickets[k2] == st.tickets[k2];
      }
    }
  }

  lemma InsertTicketKeepsColumns(st: Store, t: TicketRecord)
    requires WithinColumns(st)
    ensures WithinColumns(st.(tickets := st.tickets[t.id := StoredTicket(t)]))
  {
    StoredTextIsKept(t.boardingPoint, 200);
    StoredTextIsKept(t.droppingPoint, 200);
    StoredTextIsKept(t.bookingReference, 50);
    assert StoredTicket(StoredTicket(t)) == StoredTicket(t);
  }

  lemma UpdateSeatKeepsIntegrity(st: Store, s: SeatRecord)
    requires Integrity(st) && SeatAdmissible(st, s)
    ensures Integrity(st.(seats := st.seats[s.id := StoredSeat(s)]))
  {
    UpdateSeatKeepsSeatRows(st, s);
    StoredTextIsKept(s.seatNumber, 10);
    StoredTextIsKept(s.row, 10);
    assert StoredSeat(StoredSeat(s)) == StoredSeat(s);
  }

  /** An admissible seat update keeps the seat table's keys, schedule
      references and seat numbers per schedule apart. */
  lemma UpdateSeatKeepsSeatRows(st: Store, s: SeatRecord)
    requires SeatRows(st) && SeatAdmissible(st, s)
    ensures SeatRows(st.(seats := st.seats[s.id := StoredSeat(s)]))
  {
    var seats := st.seats[s.id := StoredSeat(s)];
    forall k1, k2 | k1 in seats && k2 in seats && k1 != k2
      ensures seats[k1].busScheduleId != seats[k2].busScheduleId || seats[k1].seatNumber != seats[k2].seatNumber
    {
      if k1 != s.id && k2 != s.id {
        assert seats[k1] == st.seats[k1] && seats[k2] == st.seats[k2];
      }
    }
  }

  /** A column keeps the text it already holds. */
  lemma StoredTextIsKept(text: string, n: nat)
    ensures Stored(Stored(text, n), n) == Stored(text, n)
  {
  }

  /** No sequence of saves can leave the rows without the schema's integrity. */
  lemma {:induction false} SaveAllKeepsIntegrity(st: Store, cs: seq<Change>)
    requires Integrity(st) && SaveAll(st, cs).Success?
    ensures Integrity(SaveAll(st, cs).value)
    ensures SaveAll(st, cs).value.schedules == st.schedules
    decreases |cs|
  {
    if cs != [] {
      ApplyChangeKeepsIntegrity(st, cs[0]);
      SaveAllKeepsIntegrity(ApplyChange(st, cs[0]).value, cs[1..]);
    }
  }

  /** The index of the first passenger row with this mobile number; the
      query is `FirstOrDefault` over the table. */
  function FirstByMobile(ps: seq<PassengerRecord>, mobileNumber: string): (r: Option<nat>)
    ensures r.Some? ==>
      r.value < |ps| && ps[r.value].mobileNumber == mobileNumber &&
      forall j :: 0 <= j < r.value ==> ps[j].mobileNumber != mobileNumber
    ensures r.None? ==> forall j :: 0 <= j < |ps| ==> ps[j].mobileNumber != mobileNumber
    decreases |ps|
  {
    if ps == [] then None
    else if ps[0].mobileNumber == mobileNumber then Some(0)
    else match FirstByMobile(ps[1..], mobileNumber)
      case None => None
      case Some(i) => Some(i + 1)
  }

  /** An open server transaction: the rows as this connection sees them,
      its own saved but uncommitted writes included. */
  datatype Transaction = Transaction(working: Store)

  /** The unit of work with its context, as a value. */
  datatype UowState = UowState(
    database: Store,
    pending: seq<Change>,
    current: Option<Transaction>,
    log: seq<DbCommand>
  )

  /** Queries run inside the current transaction when there is one. */
  function Visible(s: UowState): Store {
    match s.current
    case Some(tx) => tx.working
    case None => s.database
  }

  /** The state after an operation and what the operation returned or threw. */
  datatype After<R> = After(state: UowState, outcome: R)

  /** `SaveChangesAsync`: the tracked changes go into the current transaction,
      or straight into the committed rows when none is open; a refused save
      changes nothing and keeps the changes tracked. */
  function SaveSpec(s: UowState): (r: After<Result<nat, Exception>>)
    ensures r.outcome.Success? <==> SaveAll(Visible(s), s.pending).Success?
    ensures r.outcome.Failure? ==> r.state == s && r.outcome.error == DbUpdateException(SaveFailedMessage)
    ensures r.outcome.Success? ==>
      r.outcome.value == |s.pending| && r.state.pending == [] && r.state.log == s.log &&
      Visible(r.state) == SaveAll(Visible(s), s.pending).value &&
      r.state.current.Some? == s.current.Some? &&
      (s.current.Some? ==> r.state.database == s.database)
  {
    match SaveAll(Visible(s), s.pending)
    case Failure(e) =>
      SaveAllFailsWithDbUpdate(Visible(s), s.pending);
      After(s, Failure(e))
    case Success(st) =>
      var saved := if s.current.Some? then s.(current := Some(Transaction(st))) else s.(database := st);
      After(saved.(pending := []), Success(|s.pending|))
  }

  lemma {:induction false} SaveAllFailsWithDbUpdate(st: Store, cs: seq<Change>)
    ensures SaveAll(st, cs).Failure? ==> SaveAll(st, cs).error == DbUpdateException(SaveFailedMessage)
    decreases |cs|
  {
    if cs != [] && ApplyChange(st, cs[0]).Success? {
      SaveAllFailsWithDbUpdate(ApplyChange(st, cs[0]).value, cs[1..]);
    }
  }

  /** `BeginTransactionAsync`: refused while a transaction is current;
      otherwise the isolation statement goes out before the transaction is
      begun, and the new transaction sees the committed rows. */
  function BeginSpec(s: UowState, level: IsolationLevel): (r: After<Outcome<Exception>>)
    ensures r.outcome.Fail? <==> s.current.Some?
    ensures r.outcome.Fail? ==>
      r.state == s && r.outcome.error == InvalidOperationException("A transaction is already in progress.")
    ensures r.outcome.Pass? ==>
      r.state == s.(current := Some(Transaction(s.database)),
                    log := s.log + [ExecuteSql("SET TRANSACTION ISOLATION LEVEL " + IsolationKeyword(level)), BeginTx])
  {
    if s.current.Some? then After(s, Fail(InvalidOperationException("A transaction is already in progress.")))
    else After(s.(current := Some(Transaction(s.database)),
                  log := s.log + [ExecuteSql(IsolationStatement(level)), BeginTx]), Pass)
  }

  /** `RollbackTransactionAsync`: discards the open transaction's writes (the
      change tracker is left as it is); with none open, awaiting the null
      task throws. Either way no transaction is current afterwards. */
  function RollbackSpec(s: UowState): (r: After<Outcome<Exception>>)
    ensures r.state.current.None?
    ensures r.outcome.Fail? <==> s.current.None?
    ensures r.outcome.Fail? ==> r.state == s && r.outcome.error == NullReferenceException
    ensures r.outcome.Pass? ==>
      r.state == s.(current := None, log := s.log + [RollbackTx])
  {
    match s.current
    case None => After(s, Fail(NullReferenceException))
    case Some(_) => After(s.(current := None, log := s.log + [RollbackTx]), Pass)
  }

  /** `CommitTransactionAsync`, step by step as the code runs: save, then
      commit the current transaction (`fault` is the server's answer to
      COMMIT); any exception rolls back and is rethrown, unless the rollback
      throws instead; finally no transaction is current.
      It succeeds exactly when a transaction is open, its writes are
      admissible and the server accepts COMMIT; then the transaction's rows
      become the committed rows. A failure inside a transaction rolls it
      back and leaves the committed rows as they were. Without a transaction
      the save commits on its own and the call still throws. */
  function CommitSpec(s: UowState, fault: Option<Exception>): (r: After<Outcome<Exception>>)
    ensures r.state.current.None?
    ensures r.outcome.Pass? <==> s.current.Some? && SaveAll(Visible(s), s.pending).Success? && fault.None?
    ensures r.outcome.Pass? ==>
      r.state.database == SaveAll(Visible(s), s.pending).value && r.state.pending == [] &&
      r.state.log == s.log + [CommitTx]
    ensures s.current.Some? && r.outcome.Fail? ==>
      r.state.database == s.database && r.state.log == s.log + [RollbackTx] &&
      r.outcome.error == (if SaveAll(Visible(s), s.pending).Failure? then DbUpdateException(SaveFailedMessage) else fault.value)
    ensures s.current.None? ==>
      r.outcome == Fail(NullReferenceException) && r.state.log == s.log &&
      r.state.database == (if SaveAll(s.database, s.pending).Success? then SaveAll(s.database, s.pending).value else s.database)
  {
    var saved := SaveSpec(s);
    var tried: After<Outcome<Exception>> :=
      if saved.outcome.Failure? then After(saved.state, Fail(saved.outcome.error))
      else match saved.state.current
        case None => After(saved.state, Fail(NullReferenceException))
        case Some(tx) =>
          match fault
          case Some(e) => After(saved.state, Fail(e))
          case None => After(saved.state.(database := tx.working, log := saved.state.log + [CommitTx]), Pass);
    if tried.outcome.Fail? then
      var rolled := RollbackSpec(tried.state);
      var thrown := if rolled.outcome.Fail? then rolled.outcome.error else tried.outcome.error;
      After(rolled.state.(current := None), Fail(thrown))
    else
      After(tried.state.(current := None), Pass)
  }

  /** A failed commit has already cleared the slot, so the rollback a
      caller's catch block then issues throws. */
  lemma RollbackAfterFailedCommitThrows(s: UowState, fault: Option<Exception>)
    requires CommitSpec(s, fault).outcome.Fail?
    ensures RollbackSpec(CommitSpec(s, fault).state).outcome == Fail(NullReferenceException)
  {
  }

  /** Commits keep the schema's integrity of the committed rows. */
  lemma CommitKeepsIntegrity(s: UowState, fault: Option<Exception>)
    requires Integrity(Visible(s)) && Integrity(s.database)
    ensures Integrity(CommitSpec(s, fault).state.database)
  {
    if SaveAll(Visible(s), s.pending).Success? {
      SaveAllKeepsIntegrity(Visible(s), s.pending);
    }
  }

  /** Opening a transaction and committing it with no server fault applies
      exactly the tracked changes, when the schema admits them, and sends
      SET, BEGIN and COMMIT in that order; otherwise the committed rows stay. */
  lemma BeginThenCommit(s: UowState, level: IsolationLevel)
    requires s.current.None?
    ensures var c := CommitSpec(BeginSpec(s, level).state, None);
      (c.outcome.Pass? <==> SaveAll(s.database, s.pending).Success?) &&
      (c.outcome.Pass? ==>
         c.state.database == SaveAll(s.database, s.pending).value &&
         c.state.log == s.log + [ExecuteSql(IsolationStatement(level)), BeginTx, CommitTx]) &&
      (c.outcome.Fail? ==> c.state.database == s.database)
  {
  }

  class UnitOfWork {
    /** The committed rows. */
    var database: Store
    /** The change tracker: writes registered since the last save. */
    var pending: seq<Change>
    /** `_currentTransaction`. */
    var currentTransaction: Option<Transaction>
    /** The statements sent to the server. */
    var log: seq<DbCommand>

    function State(): UowState
      reads this
    {
      UowState(database, pending, currentTransaction, log)
    }

    /** The rows queries see. */
    function Rows(): Store
      reads this
    {
      Visible(State())
    }

    constructor (rows: Store)
      ensures State() == UowState(rows, [], None, [])
    {
      database, pending, currentTransaction, log := rows, [], None, [];
    }

    /** A repository's `AddAsync` or `UpdateAsync`: only tracked, nothing is written. */
    method Track(c: Change)
      modifies this
      ensures State() == old(State()).(pending := old(pending) + [c])
    {
      pending := pending + [c];
    }

    method SaveChanges() returns (r: Result<nat, Exception>)
      modifies this
      ensures After(State(), r) == SaveSpec(old(State()))
    {
      var target := Rows();
      var saved := SaveAll(target, pending);
      if saved.Failure? {
        SaveAllFailsWithDbUpdate(target, pending);
        return Failure(saved.error);
      }
      r := Success(|pending|);
      if currentTransaction.Some? {
        currentTransaction := Some(Transaction(saved.value));
      } else {
        database := saved.value;
      }
      pending := [];
    }

    method BeginTransaction(level: IsolationLevel) returns (o: Outcome<Exception>)
      modifies this
      ensures After(State(), o) == BeginSpec(old(State()), level)
    {
      if currentTransaction.Some? {
        return Fail(InvalidOperationException("A transaction is already in progress."));
      }
      log := log + [ExecuteSql(IsolationStatement(level))];
      log := log + [BeginTx];
      currentTransaction := Some(Transaction(database));
      return Pass;
    }

    method Rollback() returns (o: Outcome<Exception>)
      modifies this
      ensures After(State(), o) == RollbackSpec(old(State()))
      ensures currentTransaction.None?
    {
      if currentTransaction.None? {
        return Fail(NullReferenceException);
      }
      log := log + [RollbackTx];
      currentTransaction := None;
      return Pass;
    }

    method Commit(fault: Option<Exception>) returns (o: Outcome<Exception>)
      modifies this
      ensures After(State(), o) == CommitSpec(old(State()), fault)
      ensures currentTransaction.None?
    {
      var thrown: Option<Exception> := None;
      var saved := SaveChanges();
      if saved.Failure? {
        thrown := Some(saved.error);
      } else if currentTransaction.None? {
        thrown := Some(NullReferenceException);
      } else if fault.Some? {
        thrown := fault;
      } else {
        database := currentTransaction.value.working;
        log := log + [CommitTx];
      }
      if thrown.Some? {
        var rolled := Rollback();
        o := if rolled.Fail? then rolled else Fail(thrown.value);
      } else {
        o := Pass;
      }
      currentTransaction := None;
    }
  }
}
