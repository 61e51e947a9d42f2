/**
 * The record shapes of shared/schema.ts, as the in-memory store holds them.
 * Prices are decimal strings, as Drizzle types its `decimal` columns; dates are abstract instants.
 */
module Schema {
  import opened Options

  /** A reading of the clock (`new Date()`), left abstract. */
  type Timestamp = int

  /** How far in the future an order is delivered. */
  datatype Offset = Days(days: nat) | Years(years: nat)

  /** A delivery date: an instant moved forward by an offset (calendar arithmetic is not modelled). */
  datatype DeliveryDate = DeliveryDate(from: Timestamp, offset: Offset)

  datatype User = User(id: int, username: string, password: string)

  datatype InsertUser = InsertUser(username: string, password: string)

  /** A listed carbon credit. The `type` column of `carbonCredits` is `creditType` here (`type` is a Dafny keyword). */
  datatype CarbonCredit = CarbonCredit(
    id: int,
    name: string,
    description: string,
    creditType: string,
    location: string,
    verification: string,
    price: string,
    available: int,
    vintage: int,
    imageUrl: string,
    sellerId: int,
    createdAt: Option<Timestamp>)

  datatype InsertCarbonCredit = InsertCarbonCredit(
    name: string,
    description: string,
    creditType: string,
    location: string,
    verification: string,
    price: string,
    available: int,
    vintage: int,
    imageUrl: string,
    sellerId: int)

  datatype PortfolioItem = PortfolioItem(
    id: int,
    userId: int,
    creditId: int,
    quantity: int,
    purchasePrice: string,
    purchaseDate: Timestamp)

  datatype InsertPortfolioItem = InsertPortfolioItem(
    userId: int,
    creditId: int,
    quantity: int,
    purchasePrice: string)

  /**
   * A validated order payload. The `orders` table declares userId, creditId, quantity and
   * totalPrice; whether the validator also passes `unitPrice` and `duration` through is left
   * open, so both are optional here.
   */
  datatype InsertOrder = InsertOrder(
    userId: int,
    creditId: int,
    quantity: int,
    totalPrice: string,
    unitPrice: Option<string>,
    duration: Option<string>)

  /** A stored order: the payload's fields plus id, status, delivery date and creation time. */
  datatype Order = Order(
    id: int,
    userId: int,
    creditId: int,
    quantity: int,
    totalPrice: string,
    unitPrice: Option<string>,
    duration: Option<string>,
    status: string,
    deliveryDate: DeliveryDate,
    createdAt: Timestamp)

  /** A validated contact form; `company` is optional and may be null. */
  datatype InsertContactRequest = InsertContactRequest(
    firstName: string,
    lastName: string,
    email: string,
    company: Option<string>,
    interest: string,
    message: string)

  datatype ContactRequest = ContactRequest(
    id: int,
    firstName: string,
    lastName: string,
    email: string,
    company: Option<string>,
    interest: string,
    message: string,
    createdAt: Timestamp)
}
