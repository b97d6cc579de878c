# Train booking: the seat-inventory ledger

A Dafny model of the seat-inventory core of a single-page train-booking
application. The application keeps two lists in memory: the trains and the
bookings. Every train has exactly three fare classes: First, Business and
Economy. Each class has a price, a total seat count and an available seat count.

The operations on the two lists are:

- **reserve** (`handleBook`): look up the train. Refuse when the class has
  fewer available seats than requested. Otherwise take the seats off that
  class and append a Confirmed booking priced at `price * passengers`.
- **release** (`handleCancel`): give the passengers back to the booked
  train and class, then drop every booking with that id.
- **administrator edits**: add a train with a new id, replace a train
  record by id, delete a train by id.
- The **add** and **edit** forms validate each class (`availableSeats <=
  totalSeats`) before anything reaches the ledger. The add form also
  requires name, number, source and destination.
- The **search** form filters the trains by stations and seat availability.
  Each result offers its classes, with availability and price.
- Two derived views: the sorted, de-duplicated list of stations, and the
  bookings of the logged-in user.

## Layout

| file | content |
|---|---|
| `wrappers.dfy` | `Option` and `Result` |
| `types.dfy` | the records of `types.ts`: users, fare classes, trains, bookings |
| `text.dfy` | ASCII upper-casing, and the code-unit string order used by the default sort |
| `seqs.dfy` | `Array.prototype.filter` and the subsequence relation it establishes |
| `ledger.dfy` | the handlers of `App.tsx` |
| `search.dfy` | the search filter, class options and Book Now step of `UserDashboard.tsx` |
| `admin.dfy` | the add form of `AdminDashboard.tsx` |
| `edit.dfy` | the edit dialog of `EditTrainModal.tsx` |
| `catalog.dfy` | the sample train list of `App.tsx`, with worked examples on it |

Each handler in `ledger.dfy` is first a function from the old lists to the
new ones (`Reserve`, `Release`, `ReplaceTrain`, `RemoveTrain`). The class
`Ledger` holds `trains` and `bookings` as fields. Its methods update those
fields in place, and each method is proved equal to its function. The
properties are proved as lemmas about the functions.

Seat conservation is stated with `Load(s, t, c)`: the seats of train `t`,
class `c`, that are still available, plus the passengers of the bookings
held on that train and class.

- `Load` is unchanged by every reserve, whether it succeeds or not.
- `Load` is unchanged by every release of a booking that is in the list and
  whose train still exists.
- Hence `Load` is unchanged over any sequence of such calls (`RunConserves`).

The absolute form of the law is not proved: available plus booked equals
total. The sample trains start with no bookings, and most of their classes
have fewer available seats than total, so they do not satisfy it.

The model also proves the places where the code does not keep the seat
invariants:

- Reserve never checks that the passenger count is positive. A negative
  count is accepted and pushes a full class above its total
  (`ReserveNegativeOverfills`).
- Release adds the passengers back without any cap at the total; the model
  follows the code (`ReleaseDoesNotClamp`).
- A negative passenger count also makes overbooking reachable. The
  passenger field keeps any non-zero number (`UserDashboard.tsx:168`).
  Reserving -n seats, then reserving every seat left, then releasing the
  first booking leaves the class at -n (`NegativeBookingOverbooks`). With
  non-negative party sizes, every class stays within `[0, totalSeats]`
  over any admissible sequence of reserves and releases
  (`RunKeepsCapacity`). The sample trains start within that bound
  (`StartWithinCapacity`).
- Replacing a train moves `Load` by the difference in available seats
  (`ReplaceShiftsLoad`).
- Deleting a train leaves its bookings dangling. Releasing one of them
  later restores no seats (`DeleteLeavesDangling`). Without deletes every
  booking names a listed train, so every release the booking screen can
  issue is admissible (`OfferedRunAdmissible`).
- The search results are stored when the form is submitted and are not
  refreshed by a booking or a cancel. After a booking, an option can show
  more seats than are left and stay enabled; the reserve is then refused
  (`StaleOptionRefused`, `ExampleStaleOption`).

## Model

| member | source | states |
|---|---|---|
| Types.Rank | types.ts:16-22 | the class names are exactly First, Business, Economy, in declaration order; every name has its position in that order |
| Types.TrainClasses.Put | App.tsx:280-286 | updating one class of a train gives that class the new record and leaves the other two classes unchanged |
| Types.TrainDraft.WithId | App.tsx:241-244 | the added train is the submitted record with the new id, every other field kept |
| Text.UpperChar | components/AdminDashboard.tsx:82-83 | a lower-case ASCII letter becomes its capital (code point minus 32); any other character is unchanged |
| Text.Upper | components/AdminDashboard.tsx:82-83 | upper-casing keeps the length and maps each character on its own: a-z to A-Z, everything else unchanged |
| Text.UpperEmpty | components/AdminDashboard.tsx:82-89 | an upper-cased station is empty exactly when the typed one is, so the required-field check sees the form's emptiness |
| Text.UpperIdempotent | components/EditTrainModal.tsx:58-59 | upper-casing an upper-cased station changes nothing |
| Text.BelowIrreflexive | App.tsx:207 | the string order of the default sort is irreflexive |
| Text.BelowTotal | App.tsx:207 | of two different strings, exactly one comes first |
| Text.BelowTransitive | App.tsx:207 | the string order is transitive |
| Text.AscendingOrdered | App.tsx:207 | in a sorted list every earlier element is below every later one, so no element repeats |
| Text.Insert | App.tsx:202-207 | adding a station to a sorted set keeps it sorted and adds exactly that station |
| Text.SortDistinct | App.tsx:202-207 | the result is sorted and holds exactly the elements of the input |
| Seqs.Filter | App.tsx:331 | the kept elements are exactly those satisfying the predicate, the result is no longer than the input, and a satisfying first element comes first |
| Seqs.FilterCounts | App.tsx:331 | filtering keeps each satisfying element exactly as many times as it occurs, and drops every other element |
| Seqs.FilterEmbeds | App.tsx:331 | a filter keeps the survivors in their original order (an order-preserving subsequence) |
| Seqs.FilterAll | App.tsx:331 | filtering with a predicate every element satisfies returns the list unchanged |
| Seqs.FilterNone | components/UserDashboard.tsx:134-147 | filtering with a predicate no element satisfies returns the empty list |
| Seqs.FilterAppendDropped | App.tsx:307-331 | a filtered-out element appended at the end leaves the filter result unchanged |
| Ledger.FindTrain | App.tsx:263 | lookup fails exactly when no train has the id; otherwise it returns a listed train with that id |
| Ledger.FindTrainFirst | App.tsx:263 | the train found is the first with the id: every train before it has another id |
| Ledger.FindUnique | App.tsx:263 | with unique ids, lookup by a train's id returns that very train |
| Ledger.ShiftSeats | App.tsx:276-290 | moving one class's available seats changes that count by delta; its price and total, the other classes and every other field are unchanged |
| Ledger.ShiftSeatsInverse | App.tsx:284-321 | giving back the seats that were taken restores the train exactly |
| Ledger.AdjustSeats | App.tsx:276-290 | the map over trains updates the train with the id in place; every other train is unchanged at its position; the length is kept |
| Ledger.AdjustAbsent | App.tsx:313-327 | updating a train that is not listed changes nothing |
| Ledger.SeatsOfAbsent | App.tsx:313-327 | a train that is not listed holds no available seats |
| Ledger.SeatsOfFound | App.tsx:269 | with unique ids, the available seats counted for an id are those of the one train with it |
| Ledger.SeatsOfAdjust | App.tsx:276-290 | updating one (train, class) moves its available seats by delta if the train exists, and leaves every other pair unchanged |
| Ledger.BookedAppend | App.tsx:307 | appending a booking adds its passengers to the booked count of its own (train, class) only |
| Ledger.NewBooking | App.tsx:294-306 | the new booking carries the given ids, date, class and passengers, copies the train's name, number and destination, costs price times passengers and is Confirmed |
| Ledger.Reserve | App.tsx:262-309 | an unknown train is reported; too few seats is reported with the current count; in both cases nothing changes; otherwise exactly one booking is appended and the class is decremented |
| Ledger.ReserveTouchesOnlySelected | App.tsx:276-291 | a successful reserve decrements only the selected class of the selected train by the passengers; every other class, price, total and train is unchanged |
| Ledger.ReserveNeverOverbooks | App.tsx:269-284 | after a successful reserve the booked class never has a negative count |
| Ledger.ReserveKeepsBounds | App.tsx:269-290 | for a non-negative passenger count, every class within [0, total] before a reserve is still within it afterwards |
| Ledger.ReserveAt | App.tsx:262-307 | reserving at a listed train whose class has enough seats books it, shifts that train's class down by the passengers, appends the new booking and keeps ids unique |
| Ledger.ReserveNegativeOverfills | App.tsx:270-284 | a negative passenger count on a full class is accepted and leaves more available seats than the total |
| Ledger.ReserveConserves | App.tsx:276-307 | every reserve, successful or not, leaves available plus booked seats of every (train, class) unchanged |
| Ledger.DropBooking | App.tsx:331 | exactly the bookings with another id remain |
| Ledger.DropBookingCounts | App.tsx:331 | each booking with another id is kept as often as it is listed, and none with the id |
| Ledger.Release | App.tsx:311-333 | the passengers go back to the booked train and class with no cap; every booking with that id is removed; the others remain in their order |
| Ledger.ReleaseOrphan | App.tsx:313-327 | releasing a booking whose train is gone leaves the trains unchanged |
| Ledger.ReleaseDoesNotClamp | App.tsx:321 | releasing onto a full class leaves more available seats than the total |
| Ledger.DropAbsent | App.tsx:331 | dropping an id no booking has changes nothing |
| Ledger.UniqueBookingsTail | App.tsx:295 | the tail of a list with unique ids still has unique ids and does not contain the head's id |
| Ledger.BookedDrop | App.tsx:331 | dropping a listed booking (ids unique) removes exactly its passengers from its (train, class) |
| Ledger.ReleaseConserves | App.tsx:311-333 | releasing a listed booking whose train exists leaves available plus booked seats of every (train, class) unchanged |
| Ledger.ReserveReleaseRoundTrip | App.tsx:262-333 | reserving and then releasing the booking just made restores both lists exactly |
| Ledger.ReplaceTrain | App.tsx:249-255 | the trains with the edited id become the new record, with no merge; every other train keeps its position; the length is kept |
| Ledger.RemoveTrain | App.tsx:257-260 | exactly the trains with another id remain, in order, and none has the deleted id |
| Ledger.ReplaceShiftsLoad | App.tsx:249-255 | an edit moves available plus booked seats by the change in available seats, so edits are outside the conservation law |
| Ledger.DeleteLeavesDangling | App.tsx:257-260 | after a delete, the bookings on the train remain and releasing them restores nothing |
| Ledger.AdjustKeepsIds | App.tsx:276-290 | updating seats keeps train ids unique |
| Ledger.ReplaceKeepsIds | App.tsx:249-255 | replacing a train by id keeps train ids unique |
| Ledger.FilterKeepsUniqueTrains | App.tsx:258 | filtering keeps train ids unique |
| Ledger.FilterKeepsUniqueBookings | App.tsx:331 | filtering keeps booking ids unique |
| Ledger.ReserveKeepsWellFormed | App.tsx:262-309 | with a fresh booking id, reserve keeps ids unique and every listed booking Confirmed |
| Ledger.ReleaseKeepsWellFormed | App.tsx:311-333 | release keeps ids unique and every listed booking Confirmed |
| Ledger.RunConserves | App.tsx:262-333 | over any sequence of reserves with fresh ids and releases of listed bookings on existing trains, well-formedness holds and available plus booked seats stay constant |
| Ledger.RunThree | App.tsx:262-333 | three handler calls in a row are their steps composed, and are admissible exactly when each call is allowed in the state before it |
| Ledger.BookedNonNegative | App.tsx:303 | when no booking has a negative party, the booked count of every (train, class) is non-negative |
| Ledger.CapacityBounds | App.tsx:269-290 | within capacity and with non-negative parties, every class lies in [0, totalSeats] |
| Ledger.EmptyWithinCapacity | App.tsx:196-197 | with unique ids and no bookings, a ledger whose every class lies in [0, totalSeats] is within capacity |
| Ledger.ReserveKeepsCapacity | App.tsx:269-307 | a reserve with a non-negative party keeps every class non-negative and free plus booked seats within the total |
| Ledger.ReleaseKeepsCapacity | App.tsx:311-333 | releasing a listed booking whose train exists keeps every class non-negative and free plus booked seats within the total |
| Ledger.RunKeepsCapacity | App.tsx:262-333 | no overbooking over any admissible sequence of reserves with non-negative parties and releases: every class stays in [0, totalSeats] |
| Ledger.OverbookPrefix | App.tsx:262-309 | on a listed train, reserving -n seats books the party, and reserving every seat then left also books and leaves the class at 0 |
| Ledger.ReleaseNegative | App.tsx:311-333 | releasing a booking of -n seats onto a listed class at 0 leaves its available seats at -n |
| Ledger.NegativeBookingOverbooks | App.tsx:270-321 | an admissible sequence (reserve -n, reserve every seat left, release the first booking) leaves the class at -n |
| Ledger.AdjustKeepsListed | App.tsx:276-290 | after the seat map, a train id is found exactly when it was found before |
| Ledger.ReserveKeepsListed | App.tsx:262-309 | if every booking names a listed train, so does every booking after a reserve |
| Ledger.ReleaseKeepsListed | App.tsx:311-333 | if every booking names a listed train, so does every booking after a release |
| Ledger.OfferedRunAdmissible | App.tsx:262-333 | when every booking names a listed train, any sequence of reserves with fresh ids and releases of listed bookings is admissible, and keeps every booking naming a listed train |
| Ledger.Endpoints | App.tsx:203-206 | the collected stations are exactly the sources and destinations of the trains |
| Ledger.AllStations | App.tsx:201-208 | the station list is sorted and has no repeats, and a station is in it exactly when some train starts or ends there |
| Ledger.UserBookings | App.tsx:335-338 | no one logged in gives no bookings; otherwise exactly the user's bookings, in list order |
| Ledger.Ledger.constructor | App.tsx:196-197 | the ledger starts from the given trains and no bookings |
| Ledger.Ledger.HandleBook | App.tsx:262-309 | the new fields and the reported outcome are those of Reserve on the old fields; well-formedness and every (train, class) load are kept |
| Ledger.Ledger.HandleCancel | App.tsx:311-333 | the new fields are those of Release on the old fields; well-formedness is kept, and so is every load when the booking is listed and its train exists |
| Ledger.Ledger.HandleAddTrain | App.tsx:240-247 | the draft with the fresh id is appended; bookings are unchanged; ids stay unique |
| Ledger.Ledger.HandleUpdateTrain | App.tsx:249-255 | trains become ReplaceTrain of the old trains; bookings are unchanged; ids stay unique |
| Ledger.Ledger.HandleDeleteTrain | App.tsx:257-260 | trains become RemoveTrain of the old trains; bookings are not touched; ids stay unique |
| Search.Qualifies | components/UserDashboard.tsx:134-146 | a qualifying train matches both station filters (empty or equal to the upper-cased filter) and has some class with room for the whole party |
| Search.MatchingTrains | components/UserDashboard.tsx:134-147 | the results are exactly the qualifying trains, as an order-preserving subsequence of the list |
| Search.MatchingOnlyFirst | components/UserDashboard.tsx:134-147 | when only the first train qualifies, it is the whole result |
| Search.HandleSearch | components/UserDashboard.tsx:123-149 | a missing date, or the same non-empty station on both sides, is reported and leaves the shown results; otherwise the stored results are exactly the filter's: the qualifying trains, in order |
| Search.MatchingTrainsCounts | components/UserDashboard.tsx:134-147 | the search keeps each qualifying train as often as it is listed, and no other train |
| Search.AllClassesIff | components/UserDashboard.tsx:139-140 | with 'all', a train qualifies exactly when some class has at least the passengers' seats |
| Search.EmptyFiltersKeepSeatedTrains | components/UserDashboard.tsx:135-136 | empty station filters match every train; only seats decide |
| Search.NamedClassOnly | components/UserDashboard.tsx:141-143 | with a named class, only the stations and that class's seats decide |
| Search.OptionFor | components/UserDashboard.tsx:56-60 | the option shows the class's available seats, is disabled exactly when they are fewer than the passengers, and is priced at price times passengers |
| Search.ClassOptions | components/UserDashboard.tsx:55-63 | one option per class, in key order; each shows its class's available seats; disabled exactly when seats are fewer than passengers; priced at price times passengers |
| Search.ResultsOfferEnabledOption | components/UserDashboard.tsx:55-59 | every search result has an enabled option, and the searched class's option is enabled |
| Search.OptionMatchesReserve | components/UserDashboard.tsx:56-57 | for a train as currently listed in the ledger, an option is enabled exactly when reserve would book it, the booking costs the price shown, and a refusal reports the count shown |
| Search.StaleOptionRefused | components/UserDashboard.tsx:121-148 | after k seats of a class are booked on a train, its stored option for a party of m, with a - k < m <= a, still shows the old a seats and is enabled, yet reserve refuses it and reports a - k |
| Search.HandleBooking | components/UserDashboard.tsx:25-34 | no selected class gives a warning and no booking call; otherwise handleBook is called with the train, date, passengers and class |
| Admin.FirstSeatError | components/AdminDashboard.tsx:72-77 | the scan fails exactly when a listed class has more available than total seats, and reports the first such class with both counts |
| Admin.SeatCheck | components/AdminDashboard.tsx:72-77 | the check fails exactly when some class has more available than total seats (equality passes) and names the first in First, Business, Economy order |
| Admin.ScanInOrder | components/AdminDashboard.tsx:72-77 | the scan over the class order reads as a statement over all class names and their rank |
| Admin.DraftOf | components/AdminDashboard.tsx:79-87 | the new train has upper-cased stations and every other field as typed |
| Admin.HandleSubmit | components/AdminDashboard.tsx:62-96 | seats are checked first and a bad class is reported; with valid seats, an empty name, number, source or destination is reported as missing fields; otherwise the draft is added and the form reset; failure keeps the form |
| Admin.InitialFormSeatsValid | components/AdminDashboard.tsx:20-36 | the initial form's default classes pass the seat check |
| Admin.AddedTrainSeatsValid | components/AdminDashboard.tsx:72-93 | every train added through the form has each class within its total |
| Edit.FormOf | components/EditTrainModal.tsx:14-30 | the form starts from the train's fields, with a missing description shown as empty |
| Edit.HandleSubmit | components/EditTrainModal.tsx:37-66 | the save is refused exactly when the seat check fails, with its report; otherwise the whole record is replaced, keeping the id and upper-casing the stations |
| Edit.SaveUntouchedForm | components/EditTrainModal.tsx:14-66 | saving the untouched form of a valid, upper-case train gives back that train, with its description made explicit |
| Edit.SaveIsStable | components/EditTrainModal.tsx:37-66 | editing a saved train again without changes saves the same record |
| Catalog.SampleIdsListed | App.tsx:10-154 | the sample trains carry the ids T001 to T016 in order |
| Catalog.SampleIdsDistinct | App.tsx:10-154 | those sample ids are pairwise different |
| Catalog.InitialTrainsWellFormed | App.tsx:10-154 | the sample list has unique ids, so the ledger can start from it |
| Catalog.SampleSeatsInBounds | App.tsx:10-154 | every class of every sample train has between 0 and its total seats available |
| Catalog.StartWithinCapacity | App.tsx:10-197 | the application's starting state is within capacity, so RunKeepsCapacity applies to it |
| Catalog.ExampleReserve | App.tsx:262-309 | five Economy seats on T001 are booked for 4000 and leave 145 |
| Catalog.ExampleRefuse | App.tsx:269-273 | a further request for 151 is refused, reporting 145, and changes nothing |
| Catalog.ExampleStaleOption | components/UserDashboard.tsx:121-148 | after booking five Economy seats on T001, the option stored for 148 passengers shows 150 and is enabled, yet the reserve is refused with 145 |
| Catalog.ExampleAddRejected | components/AdminDashboard.tsx:72-77 | an Economy class with 120 of 100 seats is refused, naming Economy, 120 and 100 |
| Catalog.ExampleSearch | components/UserDashboard.tsx:123-149 | DELHI to MUMBAI for one passenger in any class finds only the Capital Express |
| Catalog.Demo | App.tsx:262-333 | the ledger object books T001 for 4000 and, after the cancel, holds the sample trains and no bookings again |

## Left out

- Login, signup and logout (`handleLogin`, `handleSignup`, `handleLogout`) are not modelled. Login compares the email and password against literal credentials for the admin role only; every other login, and every signup, sets the current user unchecked; logout clears it.
- The logged-in user is a parameter of reserve (`userId`). The logged-out case of `handleBook` is not modelled: there `currentUser!` fails after the seat update has been requested. The booking screen is only shown to a logged-in user.
- Ids taken from `Date.now()` are parameters (`bookingId`, `trainId`). Freshness is a precondition of the ledger methods, not a property of a clock.
- `Seqs.Filter`: its own contract states membership, a length bound and the first element. Order is stated by the separate lemma `Seqs.FilterEmbeds`. The number of copies kept is stated by the separate lemma `Seqs.FilterCounts`, which keeps the other proofs small.
- `geminiService.ts` is not part of this model. It holds the itinerary and marketing-description calls to an external text-generation service, and the handlers that await them.
- The message box is not modelled: the text of each message, its `toFixed(2)` price formatting and its display. Outcomes are datatypes instead (`BookOutcome`, `SearchError`, `SeatError`, `AddError`).
- The presentation components are not modelled: the login modal, the message box, and the Button, Input and Select wrappers.
- Prices, seat counts and passenger counts are integers. The `parseInt`/`parseFloat` parsing of the form strings is left out, including NaN, non-integer prices and floating point.
- The HTML `required` and `min` attributes of the forms are left out. They are enforced by the browser, not by the handlers. The model takes the handlers' own checks only.
- `Text.UpperChar` models `toUpperCase` of one character on ASCII letters only; any other letter (such as 'é') is left unchanged.
- `Text.Upper` models `toUpperCase` on ASCII letters only. Letters outside ASCII, whose upper case may change length, are not modelled.
- `Text.Below` compares characters as Dafny `char`s. It agrees with the UTF-16 code-unit order of `Array.prototype.sort` for characters in the Basic Multilingual Plane, and is not modelled beyond it.
- React state plumbing is not modelled: `useState`, `useMemo` and `useCallback`, batched updates, and re-rendering. Each handler is one atomic update of the ledger's two fields.
- `SearchResults` reads the live date and passenger count of the search form, not the ones of the stored search. `Search.HandleBooking` takes them as parameters and does not model the difference.
- `Search.OptionMatchesReserve`: stated only for a train as currently listed in the ledger. The dashboard draws its options from the results stored at the last search (`UserDashboard.tsx:121`, `148`, `184`), which a booking or cancel does not refresh (`App.tsx:291`, `328`). A stale option can then be enabled and refused, with a different count than it shows (`Search.StaleOptionRefused`).
- The `document.getElementById` lookup of the selected class is a parameter (`selected`).
- A class name outside the three keys cannot occur in the search filter: the select offers only the three names. The `c &&` guard of `UserDashboard.tsx:143` is therefore not modelled.
- The absolute conservation law (available plus booked equals total) is not proved, because the sample data does not satisfy it. The relative law (`Ledger.RunConserves`) is proved instead.
- `Ledger.ReserveKeepsBounds`: the upper bound `availableSeats <= totalSeats` is proved only for a non-negative passenger count, because the code accepts negative ones (`Ledger.ReserveNegativeOverfills`).
- `Ledger.ReleaseConserves`: conservation is proved only for a booking that is in the list and whose train exists. Releasing an unlisted booking, or one whose train was deleted, changes the counts (`Ledger.DeleteLeavesDangling`).
- The `Cancelled` booking status is declared, but no handler produces it. Release deletes the booking instead, so every booking in the ledger is Confirmed (`Ledger.AllConfirmed`).
