/**
 * The records a parse produces (lib/src/bill.ts, company.ts, item.ts). The
 * item carries the `sku` and `fullName` fields the parser sets although the
 * class does not declare them, and the bill carries `number` and `counter`.
 */
module BillModel {
  import opened Options

  /** Measurement units, in the order the parser tries them. */
  datatype Unit = Kom | Kg | L | Kut | Pce | M | M2

  /** The issuing company, read from fixed header lines. */
  datatype Company = Company(
    pib: string,
    name: Option<string>,
    city: Option<string>,
    address: Option<string>,
    municipality: Option<string>)

  /** The point of sale (fiscal device) that issued the receipt. */
  datatype Pos = Pos(id: string, name: string)

  /**
   * The civil date and time printed after `ПФР време:`, as the six numbers
   * handed to the `Date` constructor (so the month counts from 0); None
   * where `parseInt` gives NaN.
   */
  datatype CivilTime = CivilTime(
    year: Option<int>,
    month: Option<int>,
    day: Option<int>,
    hour: Option<int>,
    minute: Option<int>,
    second: Option<int>)

  /** One purchased line item. The VAT rate is 0, 0.1 or 0.2. */
  datatype Item = Item(
    sku: Option<string>,
    name: Option<string>,
    fullName: Option<string>,
    measurementUnit: Unit,
    vatType: real,
    price: Option<real>,
    amount: Option<real>,
    unitPrice: Option<real>)

  /** The whole receipt. `price` stays unset (None) when no total is printed. */
  datatype Bill = Bill(
    company: Option<Company>,
    pos: Option<Pos>,
    price: Option<real>,
    date: Option<CivilTime>,
    number: Option<string>,
    counter: Option<string>,
    items: seq<Item>)

  /**
   * Why a parse stops. Each is a `TypeError` the source raises when a piece
   * of text it indexes into is missing.
   */
  datatype ParseError =
    | NoItemsRule    // no text after the first 40-`=` rule
    | NoItemsHeader  // no `Укупно` in the items block
    | NoTotalLabel   // no `Укупан износ:`
    | NoTimeLabel    // no `ПФР време:`
    | NoClock        // the date-time run holds no space

  datatype Result<T> = Ok(value: T) | Err(error: ParseError)
}
