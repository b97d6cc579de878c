/**
 * The entities of the booking system: users, fare classes, trains and
 * bookings (types.ts). Prices are whole rupees; strings are seq<char>.
 */
module Types {
  import opened Wrappers

  /** 'user' | 'admin' (types.ts:2). */
  datatype UserRole = Customer | Administrator

  datatype User = User(uid: string, email: string, role: UserRole)

  /** keyof TrainClasses: exactly the three fare classes (types.ts:22). */
  datatype ClassName = First | Business | Economy

  /** The fare classes in the order their keys are declared, which is
      the order in which the forms and the search visit them. */
  const ClassOrder: seq<ClassName> := [First, Business, Economy]

  /** Position of a class in ClassOrder. */
  function Rank(c: ClassName): (k: nat)
    ensures k < |ClassOrder| && ClassOrder[k] == c
  {
    match c
    case First => 0
    case Business => 1
    case Economy => 2
  }

  /** One fare class of one train (types.ts:10-14). */
  datatype FareClass = FareClass(price: int, totalSeats: int, availableSeats: int)

  /** Every train has exactly one record per class name (types.ts:16-20). */
  datatype TrainClasses = TrainClasses(first: FareClass, business: FareClass, economy: FareClass)
  {
    /** train.classes[name] */
    function Get(name: ClassName): FareClass
    {
      match name
      case First => first
      case Business => business
      case Economy => economy
    }

    /** { ...classes, [name]: fc } */
    function Put(name: ClassName, fc: FareClass): (r: TrainClasses)
      ensures r.Get(name) == fc
      ensures forall other :: other != name ==> r.Get(other) == Get(other)
    {
      match name
      case First => this.(first := fc)
      case Business => this.(business := fc)
      case Economy => this.(economy := fc)
    }
  }

  /** A train (types.ts:24-33); the description is optional. */
  datatype Train = Train(
    id: string,
    trainName: string,
    trainNumber: string,
    source: string,
    destination: string,
    departure: string,
    description: Option<string>,
    classes: TrainClasses)

  /** The record an administrator submits: a train without its id
      (Omit<Train, 'id'>). */
  datatype TrainDraft = TrainDraft(
    trainName: string,
    trainNumber: string,
    source: string,
    destination: string,
    departure: string,
    description: Option<string>,
    classes: TrainClasses)
  {
    /** { id, ...draft } */
    function WithId(id: string): (t: Train)
      ensures t.id == id && t.classes == classes
      ensures t.trainName == trainName && t.trainNumber == trainNumber
      ensures t.source == source && t.destination == destination
      ensures t.departure == departure && t.description == description
    {
      Train(id, trainName, trainNumber, source, destination, departure, description, classes)
    }
  }

  /** 'Confirmed' | 'Cancelled' (types.ts:46). */
  datatype BookingStatus = Confirmed | Cancelled

  /** A booking refers to its train by id and keeps a copy of the train's
      name, number and destination (types.ts:35-47). */
  datatype Booking = Booking(
    id: string,
    userId: string,
    trainId: string,
    trainNumber: string,
    trainName: string,
    destination: string,
    date: string,
    fareClass: ClassName,
    passengers: int,
    totalPrice: int,
    status: BookingStatus)
}
