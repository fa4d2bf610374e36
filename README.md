# Bus ticket booking: a verified model of the booking core

This project models the core of a bus ticket reservation system in Dafny and
proves properties of the model. The system has an ASP.NET backend and an
Angular frontend. The model covers these parts:

- **Domain entities** (`Seats`, `Tickets`, `Passengers`, `Buses`, `Routes`,
  `Schedules`). Each entity is a class whose methods update its fields behind
  the same guards as the C# code. Each class has a record view (`Record()`),
  and its operations are pure functions on records (`ApplyOp`, `NewTicket`, …).
  A C# constructor that throws becomes a static `Create` that returns a
  `Result`.
- **The booking rule** (`SeatBooking`). A seat may be booked only while it is
  Available. Booking it builds an unconfirmed ticket.
- **The unit of work** (`Persistence`). It is the tables as id-keyed maps, the
  change tracker as a list of pending writes, one transaction slot, and a log
  of the commands sent to the server.
  - `UnitOfWork` is a class whose methods are proved equal to
    `BeginSpec`, `CommitSpec`, `RollbackSpec` and `SaveSpec`.
- **The booking coordinator** (`Booking`). `BookingService.BookSeat` runs its
  steps against that unit of work and is proved equal to `BookSeatSpec`:
  validate, begin a serializable transaction, load the seat, check it, find or
  register the passenger, read the fare, book, confirm, sell, track, commit.
  `GetSeatPlan` is the seat-plan projection.
- **Search** (`Search`). Input validation and the seat counting behind the
  search results and the bus details.
- **The frontend** (`BusClient`, `SeatLayout`).
  - `BusClient` models the bus service's pure mappings, on the JSON text the
    backend sends. These are `formatTime`, `formatTimeSpan`, `formatDate`, the
    seat mapping, sort and row count of `getSeatLayout`, and the two DTO-to-`Bus`
    mappings. JavaScript's `parseInt`, `%` and `||` are written out.
  - `SeatLayout` models the seat-layout component as a class. It holds mutable
    seat objects that are shared between the layout and the selection.

The clock, GUID generation and the database server's answer to COMMIT are not
computed. They are parameters: `now`, the ids and reference GUID in
`BookingEnv`, and `fault` on `Commit`.

One behaviour of the code deserves mention, and the model follows it:
- A failed COMMIT makes `CommitTransactionAsync` roll back and clear the
  transaction slot.
- The booking service's catch block then calls `RollbackTransactionAsync`
  again. It awaits the null task that `?.` gives, and that throws a
  `NullReferenceException`.
- So the caller is told "An error occurred while booking the seat: Object
  reference not set to an instance of an object." instead of the server's
  error (`CommitFailureIsReportedAsNullReference`).
- The same message replaces a write the schema refuses at commit time. For
  example, a new passenger whose mobile number has a character other than a
  space past its 20-character column passes every check in the service, and only the save inside the
  commit refuses it (`OverlongMobileNumberIsReportedAsNullReference`).

## Model

| member | source | states |
|---|---|---|
| Seats.NewSeat | src/Domain/Entities/Seat.cs:20-32 | A seat is created exactly when the schedule id is not empty and the seat number is not blank. The schedule id is checked first, and each error is an ArgumentException naming its parameter. A new seat is Available, has no update stamp, and keeps a row that is not validated. |
| Seats.Seat.Create | src/Domain/Entities/Seat.cs:20-32 | The constructor on objects. It throws NewSeat's exception, or yields a fresh seat whose record is NewSeat's. |
| Seats.Seat.FromRecord | src/Domain/Entities/Seat.cs:17-18 | The materialising constructor: the object holds exactly the loaded row. |
| Seats.Seat.Book | src/Domain/Entities/Seat.cs:34-41 | Succeeds iff the status was Available, and then the seat is Booked and stamped. Otherwise it throws "Cannot book seat N. Current status: S" and the object is unchanged. The result agrees with ApplyOp. |
| Seats.Seat.MarkAsSold | src/Domain/Entities/Seat.cs:43-50 | Succeeds iff the status was Booked, and then the seat is Sold and stamped. Otherwise it throws and the object is unchanged. |
| Seats.Seat.Release | src/Domain/Entities/Seat.cs:52-59 | Throws iff the seat is Sold, leaving it unchanged. Otherwise the seat becomes Available and is stamped. |
| Seats.Next | src/Domain/Entities/Seat.cs:34-59 | The status table of the three operations. Book needs Available, MarkAsSold needs Booked, and Release needs any status but Sold. They lead to Booked, Sold and Available. |
| Seats.ApplyOp | src/Domain/Entities/Seat.cs:34-59 | An operation succeeds iff its guard passes. The record then has the new status and the given stamp, and no other field changes. A refused operation throws GuardError's message for this seat and status. |
| Seats.Seat.IsAvailable | src/Domain/Entities/Seat.cs:61 | Holds iff Book's guard would let the seat through. |
| Seats.GuardsAreExact | src/Domain/Entities/Seat.cs:34-59 | Book moves only Available to Booked, and MarkAsSold moves only Booked to Sold. Release fails only on Sold, and on an Available seat it leaves the status as it was. |
| Seats.SoldIsTerminal | src/Domain/Entities/Seat.cs:34-59 | No sequence of seat operations takes a Sold seat to another status. |
| Seats.ForwardOnlyWithoutRelease | src/Domain/Entities/Seat.cs:34-50 | Without Release, a seat's status never goes back from Sold or Booked. |
| Seats.SoldNeedsMarkAsSold | src/Domain/Entities/Seat.cs:43-50 | A seat that was not Sold becomes Sold only through a MarkAsSold. |
| Tickets.NewTicket | src/Domain/Entities/Ticket.cs:22-45 | Created iff both ids are non-empty and the amount is positive, with the errors in the code's order. A new ticket stores its arguments, is unconfirmed, and carries BookingReference of the clock reading. |
| Tickets.Ticket.Create | src/Domain/Entities/Ticket.cs:22-45 | The constructor on objects. It throws NewTicket's exception, or yields a fresh ticket with NewTicket's record. |
| Tickets.Ticket.FromRecord | src/Domain/Entities/Ticket.cs:19-20 | The materialising constructor: the object holds exactly the loaded row. |
| Tickets.Ticket.Confirm | src/Domain/Entities/Ticket.cs:47-54 | Succeeds iff the ticket was unconfirmed, and then it is confirmed and stamped. Otherwise it throws "Ticket is already confirmed" and nothing changes. |
| Tickets.Ticket.Cancel | src/Domain/Entities/Ticket.cs:56-63 | Succeeds iff the ticket was confirmed, and then it is unconfirmed and stamped. Otherwise it throws "Cannot cancel unconfirmed ticket" and nothing changes. |
| Tickets.ConfirmCancelToggle | src/Domain/Entities/Ticket.cs:47-63 | On a new ticket, Cancel is refused. Confirm, then Cancel, then Confirm all succeed, and a second Confirm is refused. Cancel restores every field but the stamp. |
| Tickets.ApplyTicketOp | src/Domain/Entities/Ticket.cs:47-63 | Confirm succeeds iff the ticket is unconfirmed, and Cancel iff it is confirmed. Success sets the flag to the operation's value and stamps the ticket, changing no other field. A refusal is an InvalidOperationException. |
| Tickets.BookingReference | src/Domain/Entities/Ticket.cs:65-68 | The reference has 23 characters: "BKG", then 14 digits that read back as the UTC time to the second, then 6 upper-case hex digits. Those digits are the first six characters of the GUID's text, upper-cased. |
| Tickets.ReferencesOfDifferentSecondsDiffer | src/Domain/Entities/Ticket.cs:65-68 | References generated in different seconds differ, whatever the GUIDs. |
| Clock.UtcStamp | src/Domain/Entities/Ticket.cs:67 | The `yyyyMMddHHmmss` stamp is 14 digits. |
| Clock.StampRoundTrip | src/Domain/Entities/Ticket.cs:67 | The stamp parses back to the time with the fraction of a second dropped. |
| Guids.GuidText | src/Domain/Entities/Ticket.cs:67 | A GUID's default text has 36 characters, with dashes at positions 8, 13, 18 and 23. |
| Guids.GuidTextPrefix | src/Domain/Entities/Ticket.cs:67 | The first six characters of that text are the GUID's leading 24 bits in lower-case hex. |
| Text.ToUpper | src/Domain/Entities/Ticket.cs:67 | Upper-casing keeps the length and maps each character on its own. |
| SeatBooking.CanBookSeat | src/Domain/Services/SeatBookingDomainService.cs:41-44 | True iff the seat is Available, which is exactly when Seat.Book's guard passes. |
| SeatBooking.BookSeatSpec | src/Domain/Services/SeatBookingDomainService.cs:14-39 | A seat that cannot be booked is left as it was, and the call throws "Seat N cannot be booked. Current status: S". Otherwise the seat ends Booked, not Sold, even when the ticket constructor then throws. A ticket results iff the seat was bookable, the ids are non-empty and the fare is positive. It carries the passenger, the seat, the two points and the fare, and is unconfirmed. For a bookable seat, the ticket is exactly what the Ticket constructor gives for these arguments. |
| SeatBooking.BookSeat | src/Domain/Services/SeatBookingDomainService.cs:14-39 | On Seat and Passenger objects: the seat is left as BookSeatSpec says, and the ticket object or the exception is BookSeatSpec's. |
| Schedules.NewSchedule | src/Domain/Entities/BusSchedule.cs:24-51 | Created iff the bus id and route id are non-empty and the fare is positive, with the errors in the code's order. The journey date is stored as its date part, so it is midnight. |
| Schedules.BusSchedule.Create | src/Domain/Entities/BusSchedule.cs:24-51 | The constructor on objects. It throws NewSchedule's exception, or yields a fresh schedule with NewSchedule's record and no seats. |
| Schedules.BusSchedule.FromRecord | src/Domain/Entities/BusSchedule.cs:21-22 | The materialising constructor: it holds the loaded row and no seats. |
| Schedules.BusSchedule.UpdateSchedule | src/Domain/Entities/BusSchedule.cs:53-60 | Overwrites the date (truncated to its day), the two times and the fare without validation, and stamps the schedule. The bus, route, points and seats are untouched. |
| Schedules.BusSchedule.InitializeSeats | src/Domain/Entities/BusSchedule.cs:62-72 | Throws "Seats have already been initialized" iff a seat exists, and then the seats are unchanged. Only emptiness is checked, so a call that made zero seats can be repeated. Otherwise it appends n fresh Available seats numbered "1".."n" in order, owned by this schedule and labelled with CalculateRow. The seat numbers are distinct. With an empty schedule id, the first seat's constructor throws and nothing is appended. |
| Schedules.RowOfSeat | src/Domain/Entities/BusSchedule.cs:74-79 | Seats 4k+1 to 4k+4 are in row k+1, written in decimal. |
| Schedules.SameRowIffSameGroup | src/Domain/Entities/BusSchedule.cs:74-79 | Two seat numbers share a row label iff they fall in the same group of four. |
| Schedules.CalculateRow | src/Domain/Entities/BusSchedule.cs:74-79 | From seat 1 on, the label is the decimal form of (n-1)/4+1. Because C# division truncates toward zero, the numbers -2 to 0 also get row 1. |
| Schedules.DecimalIsNotBlank | src/Domain/Entities/BusSchedule.cs:69 | A seat number written in decimal is never blank, so the seat constructor accepts it. |
| Clock.DatePartIsTheDay | src/Domain/Entities/BusSchedule.cs:45 | `.Date` is midnight on the same day and is idempotent. Two times have the same date part iff they fall on the same calendar day. |
| Passengers.NewPassenger | src/Domain/Entities/Passenger.cs:17-28 | Created iff neither the name nor the mobile number is blank, with the name checked first. The e-mail is optional and stored as given. |
| Passengers.Passenger.Create | src/Domain/Entities/Passenger.cs:17-28 | The constructor on objects. It throws NewPassenger's exception, or yields a fresh passenger with NewPassenger's record. |
| Passengers.Passenger.FromRecord | src/Domain/Entities/Passenger.cs:15 | The materialising constructor. |
| Passengers.Passenger.UpdateDetails | src/Domain/Entities/Passenger.cs:30-36 | Overwrites the name, the mobile number and the e-mail without validation, and stamps the passenger. The result is a valid passenger iff the constructor would have accepted the new values. |
| Buses.NewBus | src/Domain/Entities/Bus.cs:19-38 | Created iff the company name, bus name and bus number are not blank and the seat count is positive, with the errors in that order. The bus type is not validated, and all five fields are stored as given. |
| Buses.Bus.Create | src/Domain/Entities/Bus.cs:19-38 | The constructor on objects. It throws NewBus's exception, or yields a fresh bus with NewBus's record. |
| Buses.Bus.FromRecord | src/Domain/Entities/Bus.cs:17 | The materialising constructor. |
| Buses.Bus.UpdateDetails | src/Domain/Entities/Bus.cs:40-48 | Overwrites all five fields without validation, so the seat count may become zero or negative, and stamps the bus. The result is valid iff NewBus would accept the values. |
| Routes.NewRoute | src/Domain/Entities/Route.cs:18-36 | Created iff neither city is blank, the distance is positive and the duration is positive, with the errors in that order. The fields are stored as given. |
| Routes.Route.Create | src/Domain/Entities/Route.cs:18-36 | The constructor on objects. It throws NewRoute's exception, or yields a fresh route with NewRoute's record. |
| Routes.Route.FromRecord | src/Domain/Entities/Route.cs:16 | The materialising constructor. |
| Routes.Route.UpdateDetails | src/Domain/Entities/Route.cs:38-45 | Overwrites all four fields without validation and stamps the route. The result is valid iff NewRoute would accept the values. |
| Persistence.IsolationKeyword | src/Infrastructure/Repositories/UnitOfWork.cs:33-41 | The mapping is total. It always gives one of the five SQL keywords, and any level without a name of its own gives "READ COMMITTED". |
| Persistence.NamedLevelsAreDistinguished | src/Infrastructure/Repositories/UnitOfWork.cs:33-41 | The five named levels map to five different keywords. |
| Persistence.ApplyChange | src/Infrastructure/Repositories/Repository.cs:28-38 | A tracked insert or update is refused with a DbUpdateException exactly when it would break a key, a foreign key, a unique index or a column limit. A seat update must keep an existing seat key and an existing schedule (SeatConfiguration.cs:37-40), and its stored seat number must differ from every other seat of that schedule (SeatConfiguration.cs:34-35). A ticket insert must have a new key, an existing seat and passenger, and a booking reference and seat no other ticket has. The limits are those of the entity configurations, as `varchar(n)` columns: a passenger's name and e-mail 200 characters and mobile number 20; a ticket's points 200 and reference 50; a seat's number and row 10; and a ticket amount within `decimal(10,2)`. A text breaks its limit only when a character past the limit is not a space; an accepted text is stored as its first n characters. Schedules are never written. |
| Persistence.ApplyChangeKeepsIntegrity | src/Infrastructure/Persistence/Configurations/TicketConfiguration.cs:43-54 | An accepted write preserves referential integrity (seat to schedule, ticket to seat and passenger), distinct seat numbers within a schedule, distinct passenger keys, unique booking references, at most one ticket per seat, and every stored text within its column. |
| Persistence.SpacePaddedMobileNumberIsCut | src/Infrastructure/Persistence/Configurations/PassengerConfiguration.cs:19-21 | A new passenger whose 20-character mobile number is followed by any number of spaces is accepted, and the row stored is the one without the spaces. |
| Persistence.SaveAllKeepsIntegrity | src/Infrastructure/Persistence/Configurations/TicketConfiguration.cs:43-54 | A SaveChanges batch that is accepted preserves that integrity and leaves the schedules alone. |
| Persistence.SaveAllFailsWithDbUpdate | src/Infrastructure/Repositories/UnitOfWork.cs:19-22 | A refused SaveChanges always throws DbUpdateException. |
| Persistence.FirstByMobile | src/Infrastructure/Repositories/PassengerRepository.cs:14-18 | Finds the first passenger row with the mobile number, or none iff no row has it. |
| Persistence.SaveSpec | src/Infrastructure/Repositories/UnitOfWork.cs:19-22 | Succeeds iff every tracked write is admissible. Then it reports their count, clears the tracker and writes them into the open transaction, or into the committed rows when none is open. A refused save changes nothing. |
| Persistence.BeginSpec | src/Infrastructure/Repositories/UnitOfWork.cs:24-47 | Fails, changing nothing, iff a transaction is current: "A transaction is already in progress.". Otherwise `SET TRANSACTION ISOLATION LEVEL k` is sent before BEGIN, and the new transaction sees the committed rows. |
| Persistence.RollbackSpec | src/Infrastructure/Repositories/UnitOfWork.cs:71-85 | Afterwards no transaction is current. It throws a NullReferenceException iff none was open. Otherwise it discards the transaction's writes and logs ROLLBACK. |
| Persistence.CommitSpec | src/Infrastructure/Repositories/UnitOfWork.cs:49-69 | Afterwards no transaction is current. It succeeds iff a transaction is open, its writes are admissible and the server accepts COMMIT, and then the transaction's rows are committed. A failure inside a transaction rolls back and rethrows the save or commit error, leaving the committed rows as they were. With no transaction it throws a NullReferenceException after the save. |
| Persistence.RollbackAfterFailedCommitThrows | src/Infrastructure/Repositories/UnitOfWork.cs:56-59 | After a failed commit, a further rollback throws a NullReferenceException. |
| Persistence.CommitKeepsIntegrity | src/Infrastructure/Repositories/UnitOfWork.cs:49-69 | Committing, successfully or not, keeps the committed rows' integrity. |
| Persistence.BeginThenCommit | src/Infrastructure/Repositories/UnitOfWork.cs:24-69 | Beginning and then committing, with any writes tracked and the server accepting COMMIT, succeeds iff SaveChanges accepts those writes against the committed rows. On success the committed rows are exactly what that save gives, and the log gains SET TRANSACTION, BEGIN and COMMIT in that order. On failure the committed rows are unchanged. |
| Persistence.UnitOfWork.constructor | src/Infrastructure/Repositories/UnitOfWork.cs:14-17 | A new unit of work has no transaction, no tracked writes and an empty log over the given rows. |
| Persistence.UnitOfWork.Track | src/Infrastructure/Repositories/Repository.cs:28-38 | AddAsync or UpdateAsync only records the write in the change tracker. |
| Persistence.UnitOfWork.SaveChanges | src/Infrastructure/Repositories/UnitOfWork.cs:19-22 | The new state and the result are SaveSpec's. |
| Persistence.UnitOfWork.BeginTransaction | src/Infrastructure/Repositories/UnitOfWork.cs:24-47 | The new state and the outcome are BeginSpec's. |
| Persistence.UnitOfWork.Rollback | src/Infrastructure/Repositories/UnitOfWork.cs:71-85 | The new state and the outcome are RollbackSpec's. |
| Persistence.UnitOfWork.Commit | src/Infrastructure/Repositories/UnitOfWork.cs:49-69 | The new state and the outcome are CommitSpec's. |
| Booking.Caught | src/Application/Services/BookingService.cs:160-171 | A caught InvalidOperationException becomes a failure carrying its message verbatim. Any other exception is reported after "An error occurred while booking the seat: ". |
| Booking.InTransaction | src/Application/Services/BookingService.cs:86-158 | The inner try block within an open transaction. Unless it succeeds, the committed rows are untouched. A completed block leaves no transaction current. Success carries "Seat booked successfully", the new ticket's id and its reference. |
| Booking.ResolvePassenger | src/Application/Services/BookingService.cs:108-113 | An existing passenger with this mobile number is reused as stored. Otherwise a new one is built from the request, which fails on a blank name or number. Any passenger it gives has the requested mobile number. |
| Booking.RollbackThenReturn | src/Application/Services/BookingService.cs:92-93 | The early returns for a missing seat, a seat that is not available and a missing schedule. They roll back, then return the result. The rows and the pending writes are unchanged and no transaction is left open. Without an open transaction the rollback throws a NullReferenceException instead. |
| Booking.WithPassenger | src/Application/Services/BookingService.cs:115-151 | From reading the fare on. A missing schedule rolls back, and the committed rows are untouched unless the sale commits. |
| Booking.SellAndCommit | src/Application/Services/BookingService.cs:123-151 | The book, confirm, sell, track and commit steps, with the same guarantees as InTransaction. |
| Booking.BookSeatSpec | src/Application/Services/BookingService.cs:71-172 | An empty schedule id gives "Invalid bus schedule" before the seat id is looked at. An empty seat id gives "Invalid seat". Neither touches the transaction. A failure never changes the committed rows, and the call never throws. With a transaction already open, it reports "A transaction is already in progress." and changes nothing. |
| Booking.BookingEffect | src/Application/Services/BookingService.cs:84-151 | A successful booking sold a seat that was Available. It added one confirmed ticket for that seat at the input schedule's fare, and registered the passenger only when no row had the mobile number. Each stored row has its texts cut to their columns. It changed nothing else, and the server saw SET TRANSACTION, BEGIN and one COMMIT. |
| Booking.InTransactionEffect | src/Application/Services/BookingService.cs:86-151 | The same effect, stated for the inner block within an open transaction. |
| Booking.SellAndCommitEffect | src/Application/Services/BookingService.cs:123-151 | After the sale commits, the rows hold the sold seat, the confirmed ticket and any new passenger, each with its texts cut to their columns, and nothing else changed. |
| Booking.SaveAllStep | src/Infrastructure/Repositories/UnitOfWork.cs:19-22 | A save applies its first tracked write and then the rest. |
| Booking.SaveSaleValue | src/Application/Services/BookingService.cs:108-142 | The rows that the sale's writes produce, with or without a new passenger: each written row as its columns store it. |
| Booking.BookingKeepsInvariants | src/Application/Services/BookingService.cs:71-172 | Every booking, successful or not, keeps the store's integrity and keeps every ticketed seat Sold. |
| Booking.SoldSeatCannotBeBookedAgain | src/Application/Services/BookingService.cs:96-105 | After a successful booking, booking the same seat again is refused with "Seat N is not available. Current status: Sold". Only the rolled-back transaction is logged. |
| Booking.SoldSeatIsRefused | src/Application/Services/BookingService.cs:96-105 | A Sold seat is refused with its status named, after a rollback, and nothing else changes. |
| Booking.UnavailableSeatIsRefused | src/Application/Services/BookingService.cs:96-105 | A seat that is not Available is refused with its number and status after a rollback. The seat and the rows are unchanged. |
| Booking.MissingSeatIsRefused | src/Application/Services/BookingService.cs:89-94 | A missing seat gives "Seat not found" after a rollback. |
| Booking.MissingScheduleIsRefused | src/Application/Services/BookingService.cs:107-121 | A missing schedule gives "Bus schedule not found" after a rollback. A passenger registered on the way is still tracked, unsaved. |
| Booking.CommitFailureIsReportedAsNullReference | src/Application/Services/BookingService.cs:142-158 | When the server refuses COMMIT, a booking that would otherwise succeed is rolled back. The second rollback finds no transaction, so the caller sees the null-reference message instead of the server's error. |
| Booking.SaleWithOverlongPassengerIsRefused | src/Infrastructure/Persistence/Configurations/PassengerConfiguration.cs:19-21 | A sale whose staged new passenger has a text with a non-space character past its column limit is refused in the commit's save with a DbUpdateException. The transaction is rolled back and the committed rows are unchanged. |
| Booking.OverlongMobileNumberIsReportedAsNullReference | src/Application/Services/BookingService.cs:107-158 | A new passenger whose mobile number has a character other than a space past its 20th passes every check of the service. The refused save rolls the transaction back, and the second rollback makes the caller see the null-reference message. Nothing is stored, and no transaction is left open. |
| Booking.SeatEntries | src/Application/Services/BookingService.cs:59-65 | One seat entry per seat, in order, copying the id, number, row and status. |
| Booking.GetSeatPlan | src/Application/Services/BookingService.cs:40-69 | Throws "Bus schedule with ID g not found" iff the schedule is missing. Otherwise the plan copies the schedule's times, fare and points, the bus's names and capacity, and one entry per seat. |
| Booking.BookingService.constructor | src/Application/Services/BookingService.cs:24-38 | The service works on the unit of work it is given. |
| Booking.BookingService.BookSeat | src/Application/Services/BookingService.cs:71-172 | The imperative coordinator over Seat, Passenger and Ticket objects and the unit of work. Its new state and result are BookSeatSpec's. |
| Booking.BookingService.BookInTransaction | src/Application/Services/BookingService.cs:86-158 | The inner try block as a method. Its new state and result are InTransaction's. |
| Booking.BookingService.BookWithPassenger | src/Application/Services/BookingService.cs:115-151 | Its new state and result are WithPassenger's. |
| Booking.BookingService.Sell | src/Application/Services/BookingService.cs:123-151 | Its new state and result are SellAndCommit's. |
| Booking.BookingService.RollbackAndReturn | src/Application/Services/BookingService.cs:92-93 | Rolls back, then returns the failure it was given. |
| Search.BookedSeats | src/Application/Services/SearchService.cs:35 | The count of Booked or Sold seats is at most the number of seats. It is 0 iff no seat is taken, and it is the number of seats iff every seat is taken. |
| Search.TakenPlusAvailable | src/Application/Services/SearchService.cs:35 | Taken seats plus Available seats make up every seat. |
| Search.AvailableCount | src/Application/Services/SearchService.cs:35-36 | The Available seats number at most all seats. They are all of them exactly when every seat is Available, and none exactly when no seat is. |
| Search.TakingASeatCountsOnce | src/Application/Services/SearchService.cs:35 | Booking or selling one Available seat raises the count by exactly one. |
| Search.Summarize | src/Application/Services/SearchService.cs:32-54 | Seats left is the bus's declared capacity minus the booked seats, not clamped. When the seat list matches the capacity, it equals the number of Available seats. The price is the fare, and the alias fields copy their originals. The schedule id, company name, bus name, bus type, journey date, departure and arrival times, and boarding and dropping points are copied from the loaded schedule and its bus. |
| Search.SummarizeAll | src/Application/Services/SearchService.cs:32-54 | One result per schedule the repository found, in the same order. |
| Search.SearchAvailableBuses | src/Application/Services/SearchService.cs:22-57 | A blank `from` throws "From city cannot be empty" before `to` is checked, and a blank `to` throws "To city cannot be empty". Otherwise the repository is asked for the date part of the journey date, and its schedules are summarised. |
| Search.SearchIgnoresTimeOfDay | src/Application/Services/SearchService.cs:30 | Two journey dates on the same day give the same search. |
| Search.GetBusByScheduleId | src/Application/Services/SearchService.cs:59-86 | Null iff the repository finds no schedule. Otherwise it is the same summary as the search. |
| Search.SeatPlanAgreesWithSearch | src/Application/Services/SearchService.cs:67 | The seats the seat plan shows as taken are the seats the search counts as booked. |
| BusClient.TrimStart | src/bus-reservation-system/src/app/services/bus.ts:88 | parseInt skips exactly the leading white space. |
| BusClient.DigitPrefix | src/bus-reservation-system/src/app/services/bus.ts:88 | parseInt reads the longest run of digits of its radix. |
| BusClient.ParseDecimal | src/bus-reservation-system/src/app/services/bus.ts:88 | A string of decimal digits parses to its value, with or without radix 10. |
| BusClient.ParseInt | src/bus-reservation-system/src/app/services/bus.ts:88 | A radix outside 2 to 36 (0 aside) gives NaN, and so does blank input. A negative result needs a leading minus sign after the white space. |
| BusClient.RadixTenIsDecimal | src/bus-reservation-system/src/app/services/bus.ts:88 | In radix 10, the digit run is the whole digit string and has its decimal value. |
| BusClient.SeatNumberParsesBack | src/bus-reservation-system/src/app/services/bus.ts:88 | A seat number the backend writes, k in decimal, parses back to k. |
| BusClient.JsRem | src/bus-reservation-system/src/app/services/bus.ts:124 | JavaScript's `%` stays strictly between -b and b, and agrees with the mathematical remainder on non-negative numbers. |
| BusClient.TwelveHourRoundTrip | src/bus-reservation-system/src/app/services/bus.ts:123-124 | An hour of the day shows as 1 to 12, and the shown hour and the AM/PM suffix give back the hour. |
| BusClient.ClockFace | src/bus-reservation-system/src/app/services/bus.ts:124 | The displayed hour is h % 12 in decimal, or 12 when that is 0. |
| BusClient.SplitTime | src/bus-reservation-system/src/app/services/bus.ts:121 | Splitting "hh:mm:rest" at ':' gives hh first and mm second. |
| BusClient.FormatNonNegativeHour | src/bus-reservation-system/src/app/services/bus.ts:120-126 | When the hour text parses to a number, the result is that hour on the 12-hour clock, the minutes text and the AM/PM suffix. |
| BusClient.FormatDecimalHour | src/bus-reservation-system/src/app/services/bus.ts:120-126 | The same for an hour written in decimal digits. |
| BusClient.FormatTimeOfDay | src/bus-reservation-system/src/app/services/bus.ts:120-126 | "hh:mm:…" shows as the 12-hour hour, then ":" and the minutes text copied verbatim, then " AM" or " PM" (PM iff the hour is 12 or more). Anything after the minutes is dropped. |
| BusClient.TimeOfDayShownOnTwelveHourClock | src/bus-reservation-system/src/app/services/bus.ts:31-32 | A departure time under a day, as the backend serialises it, shows its hour on the 12-hour clock, its minutes as two digits and the right suffix. |
| BusClient.FormatTime | src/bus-reservation-system/src/app/services/bus.ts:120-126 | The text ends in " AM" or " PM", and in " PM" exactly when the text before the first colon parses to an hour of at least 12. |
| BusClient.FormatTimeSpan | src/bus-reservation-system/src/app/services/bus.ts:131-137 | A string goes through formatTime, and anything else shows "00:00 AM". |
| BusClient.FormatDate | src/bus-reservation-system/src/app/services/bus.ts:142-145 | A date string is cut before its first 'T', and a string without 'T' is returned whole. |
| BusClient.TimeSpanJson | src/Application.Contracts/DTOs/AvailableBusDto.cs:14-15 | A negative duration starts with a minus sign and no other does. A time of day under a day reads as `hh:mm:ss`, whose fields give back its hours, minutes and seconds. |
| BusClient.DateTimeJson | src/Application.Contracts/DTOs/AvailableBusDto.cs:13 | The text starts with the `yyyy-MM-dd` date, a 'T' and `HH:mm:ss` fields that give back the time. It is exactly 19 characters long iff the moment has no fraction of a second. |
| BusClient.SerializeBus | src/Application.Contracts/DTOs/AvailableBusDto.cs:9-26 | The three alias fields repeat what they stand for: availableSeats is seatsLeft, busNumber is busName and fare is price. |
| BusClient.IsoDate | src/bus-reservation-system/src/app/services/bus.ts:33 | The `yyyy-MM-dd` text is 10 characters. |
| BusClient.IsoDateDeterminesDay | src/bus-reservation-system/src/app/services/bus.ts:33 | Two dates have the same `yyyy-MM-dd` text iff they are the same calendar day. |
| BusClient.DatePrefixIsTheDay | src/bus-reservation-system/src/app/services/bus.ts:33 | Cutting a serialised DateTime at 'T' gives its `yyyy-MM-dd` day, both in formatDate and in searchBuses. |
| BusClient.TextOr | src/bus-reservation-system/src/app/services/bus.ts:52-62 | JavaScript `||` on strings: the empty string falls through. |
| BusClient.NumberOr | src/bus-reservation-system/src/app/services/bus.ts:59 | `||` on numbers: zero falls through. |
| BusClient.AmountOr | src/bus-reservation-system/src/app/services/bus.ts:61 | `||` on amounts: zero falls through. |
| BusClient.SearchResultShowsBackendValues | src/bus-reservation-system/src/app/services/bus.ts:25-38 | A search result shows the backend's schedule id, bus name and points, the company in the bus-number slot, the day of the journey, seats left, capacity, price and type. A departure time under a day shows on the 12-hour clock. |
| BusClient.SearchResult | src/bus-reservation-system/src/app/services/bus.ts:25-38 | The journey date is what formatDate gives and contains no 'T'. Both times are formatted as formatTimeSpan formats a string. The company fills the bus-number slot, and the seats left and the price are shown as sent. |
| BusClient.BusDetailsFallbacks | src/bus-reservation-system/src/app/services/bus.ts:50-63 | The backend sends the alias fields, so the details page shows seats left and the price as they are, zero included. Only an empty name, number or type is replaced by its fallback. |
| BusClient.BusDetails | src/bus-reservation-system/src/app/services/bus.ts:50-63 | The bus name, number and type are never empty. The journey date agrees with the search result's. The seat count is 0 only when both seat fields are, and the fare is 0 only when both amount fields are. |
| BusClient.DetailsAgreeWithSearch | src/bus-reservation-system/src/app/services/bus.ts:25-63 | The details page and the search results agree on the id, points, times, date, seats and fare. They agree on the name and type whenever the backend has one. |
| BusClient.SerializeSeats | src/Application.Contracts/DTOs/SeatPlanDto.cs:5-11 | Each seat entry goes out with its id's text, number, row and status code, in order. |
| BusClient.MapSeats | src/bus-reservation-system/src/app/services/bus.ts:78-85 | One seat view per seat, in order. |
| BusClient.SeatFlagsFollowStatus | src/bus-reservation-system/src/app/services/bus.ts:78-85 | A mapped seat is booked iff its status is not Available, and sold iff it is Sold, so every sold seat is booked. It is not selected, and it keeps the backend's id and number. |
| BusClient.Insert | src/bus-reservation-system/src/app/services/bus.ts:87-91 | Inserting keeps the multiset of seats, plus the new one. |
| BusClient.InsertKeepsOrder | src/bus-reservation-system/src/app/services/bus.ts:87-91 | Inserting into a list sorted by the comparator keeps it sorted. |
| BusClient.SortBy | src/bus-reservation-system/src/app/services/bus.ts:87-91 | The sorted seats are a permutation of the input, and no seat is followed by one the comparator puts first. |
| BusClient.RowsOfFour | src/bus-reservation-system/src/app/services/bus.ts:96 | `Math.ceil(n / 4)`: zero iff n is zero, and otherwise the fewest rows of four that hold n seats. |
| BusClient.GetSeatLayout | src/bus-reservation-system/src/app/services/bus.ts:73-103 | The layout keeps the schedule id. Its seats are a permutation of the mapped seats, sorted by the parsed seat number, with none selected. It has 4 columns and ceil(n/4) rows. |
| BusClient.OccursOnce | src/bus-reservation-system/src/app/services/bus.ts:87-91 | With distinct numeric keys, no seat view occurs twice. |
| BusClient.NoRepeatedEntry | src/bus-reservation-system/src/app/services/bus.ts:87-91 | In a list where nothing occurs twice, two positions hold different seats. |
| BusClient.DistinctKeysKept | src/bus-reservation-system/src/app/services/bus.ts:87-91 | A permutation keeps the keys distinct and numeric. |
| BusClient.DistinctSeatNumbersAscend | src/bus-reservation-system/src/app/services/bus.ts:87-91 | When the seat numbers parse to distinct integers, the layout's seats strictly ascend by number. |
| SeatLayout.Seat.constructor | src/bus-reservation-system/src/app/services/bus.ts:79-85 | A seat object starts out as the mapped seat view. |
| SeatLayout.WithoutId | src/bus-reservation-system/src/app/components/seat-layout/seat-layout.ts:85 | The filter keeps, in order, exactly the entries whose id differs. Afterwards an id is present iff it was before and is not the removed one. |
| SeatLayout.SubsequenceKeepsIdsApart | src/bus-reservation-system/src/app/components/seat-layout/seat-layout.ts:85 | Filtering a list with distinct ids keeps them distinct and adds no seat. |
| SeatLayout.SelectingKeepsIds | src/bus-reservation-system/src/app/components/seat-layout/seat-layout.ts:82-83 | Appending a seat whose id is absent keeps the ids distinct. Afterwards exactly that seat is added to the selected layout seats. |
| SeatLayout.DeselectingKeepsIds | src/bus-reservation-system/src/app/components/seat-layout/seat-layout.ts:84-85 | Filtering out a seat's id keeps the ids distinct. Afterwards exactly that seat is gone from the selected layout seats. |
| SeatLayout.Snapshot | src/bus-reservation-system/src/app/components/seat-layout/seat-layout.ts:120 | The serialised selection is the selected seats' current values, in order. |
| SeatLayout.SeatLayoutComponent.constructor | src/bus-reservation-system/src/app/components/seat-layout/seat-layout.ts:15-30 | The component starts with an empty bus id, no layout and no selection, and remembers whether it runs in a browser. |
| SeatLayout.SeatLayoutComponent.ShowLayout | src/bus-reservation-system/src/app/components/seat-layout/seat-layout.ts:33-64 | The route's id becomes the bus id, the received layout replaces the old one, and the selection is kept. A fresh layout with distinct ids and nothing selected, shown before any selection, satisfies the selection invariant. |
| SeatLayout.SeatLayoutComponent.ToggleSeatSelection | src/bus-reservation-system/src/app/components/seat-layout/seat-layout.ts:75-87 | A booked seat changes nothing. Otherwise its flag flips. Selecting appends the seat, and deselecting removes every entry with its id while keeping the order of the rest. Toggling a layout seat keeps the invariant: each id is selected at most once, and exactly when that seat's flag is set. |
| SeatLayout.SeatLayoutComponent.IsSeatSelected | src/bus-reservation-system/src/app/components/seat-layout/seat-layout.ts:89-91 | The seat's flag. Under the invariant, it holds iff the seat's id is in the selection. |
| SeatLayout.SeatLayoutComponent.GetSeatsInRows | src/bus-reservation-system/src/app/components/seat-layout/seat-layout.ts:97-110 | No layout gives no rows. Otherwise there are ceil(n/4) rows, and row k is seats 4k up to 4k+4. Every row but the last has 4 seats and the last has 1 to 4. The rows concatenated are the seat list. |
| SeatLayout.SeatLayoutComponent.ProceedToBooking | src/bus-reservation-system/src/app/components/seat-layout/seat-layout.ts:112-123 | An empty selection alerts "Please select at least one seat to continue." and stores and navigates nothing. Otherwise, in a browser, it stores the selected seats' values, and it navigates to `/booking/<busId>`. |
| Text.NatToStringRoundTrip | src/Domain/Entities/BusSchedule.cs:69 | The decimal text of a number reads back as that number. |
| Text.NatToStringInjective | src/Domain/Entities/BusSchedule.cs:69 | Different numbers have different decimal texts. |
| Text.PadDecimalRoundTrip | src/Domain/Entities/Ticket.cs:67 | A zero-padded field reads back as its number. |
| Text.HexPadDropTwo | src/Domain/Entities/Ticket.cs:67 | Dropping the last two hex digits of a padded number is dividing it by 256. |
| Text.SplitJoin | src/bus-reservation-system/src/app/services/bus.ts:121 | Joining the pieces of a split gives back the string, and no piece contains the separator. |
| Text.SplitAtFirst | src/bus-reservation-system/src/app/services/bus.ts:144 | A split's first piece is the text before the first separator. |
| Text.SplitWithoutSeparator | src/bus-reservation-system/src/app/services/bus.ts:144 | A string without the separator splits into itself. |

## Left out

- Concurrency and isolation. The model is sequential once the repositories are maps. The isolation statement is recorded in the command log in the order the code sends it, but what the database does with it (row locks, and a SET TRANSACTION sent before BEGIN) is not modelled.
- Entity Framework plumbing. Repositories are the maps of `Persistence.Store`. Repository queries are taken as inputs:
  - the loaded schedule for the seat plan and bus details;
  - a function for the search query;
  - the first matching passenger row, taken in the store's row order because the query has no ORDER BY.
- Exact inner exception messages. The unique indexes (seat number per schedule, booking reference, one ticket per seat) and the foreign keys surface only as a refused `SaveChanges` with EF's outer message.
- Bootstrap, dependency injection, the HTTP controllers and the database seeder. They are I/O glue.
- The other Angular components and services, the router, `sessionStorage` and `alert`. `ProceedToBooking` returns the alert or the navigation with what it would store, instead of performing it.
- Observables, `console.log` and change detection in the frontend.
- Async tasks. Every awaited call is a sequential step.
- The clock and GUID generation, and the server's answer to COMMIT. They are parameters. `SetUpdatedAt` is modelled as the `updatedAt` stamp set to the given time. `CreatedAt` is not modelled, and neither are faults of the environment other than a refused COMMIT (a lost connection, say).
- Schedules.BusSchedule.InitializeSeats: the new seats' GUIDs are supplied by the caller, at least one per seat, because `Guid.NewGuid` is not modelled.
- Money. C# `decimal` and JavaScript numbers are exact reals, with no rounding or 28-digit limit. The `decimal(10,2)` columns are modelled only by their overflow; the rounding of a third decimal place on write is not modelled.
- Persistence.ApplyChange: column lengths count `char`s, while the server counts characters, so a string with surrogate pairs may be refused or cut later here than there. `NOT NULL` columns are not modelled, since strings are never null.
- Integer width. C# `int` wrap-around is not modelled: the seat counts at SearchService.cs:34-36 and the loop bound of `InitializeSeats` (BusSchedule.cs:66-70) are unbounded integers. A real schedule's counts are far below 2^31.
- Changes to entities already loaded are not tracked: only explicit Add and Update calls enter the pending writes. The one place this differs is a seat marked Booked in memory before the Ticket constructor throws (src/Domain/Services/SeatBookingDomainService.cs:14-39); the booking then rolls back and rethrows without a save (src/Application/Services/BookingService.cs:153-158), so no caller sees the seat change.
- Booking.BookingEffect: one clock reading `now` stands for every `DateTime.UtcNow` the booking reads, so the seat's and the ticket's stamps come out equal. In the code they are separate readings and may differ by the time between them.
- Null strings. Strings are never null, so null and whitespace checks reduce to blankness.
- Culture. Upper-casing covers ASCII letters only, which is all a GUID's hex text contains.
- The `Date`-object branch of `formatDate`. It depends on the JavaScript Date library. The model takes every JSON value of `journeyDate` to be the string the backend sends.
- JSON wire values. They are modelled as the text the backend's serialiser writes:
  - a TimeSpan in the invariant "c" format;
  - a DateTime as `yyyy-MM-ddTHH:mm:ss` with trailing zeros of the fraction trimmed, and no zone designator.
  Other serialiser settings are not modelled.
- JavaScript number precision. `parseInt` results above 2^53, and exponent forms of `toString`, are not modelled. Numbers are unbounded integers.
- BusClient.SortBy: it states the comparator's order and a permutation, not the engine's exact sort. When seat numbers do not parse, the comparator returns NaN, the order JavaScript's sort then produces is implementation-defined, and the model picks one of the orders its contract allows.
- BusClient.FormatTimeOfDay: it covers hours written in decimal digits. A TimeSpan of a day or more is serialised as "d.hh:mm:ss", so formatTime reads the day count as the hour. That case is modelled by `FormatTime` but has no lemma of its own.
- SeatLayout.Seat.constructor: the id, number and booked and sold flags are constants of the seat object, since no code path changes them. Only `isSelected` is a mutable field.
- SeatLayout.SeatLayoutComponent.ShowLayout: a new layout does not reset the selection, as in the code. The invariant is stated only for a layout shown before any selection. A selection made on an earlier layout is left stale, as it is in the component.
