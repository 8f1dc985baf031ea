/** Failure-compatible Option and Result types used throughout the model.
    A `Result` stands for a Python call that either returns a value or raises. */
module Wrappers {

  datatype Option<+T> = None | Some(value: T)

  datatype Result<+R, +E> = Success(value: R) | Failure(error: E) {

    predicate IsFailure() {
      Failure?
    }

    function PropagateFailure<U>(): Result<U, E>
      requires Failure?
    {
      Failure(error)
    }

    function Extract(): R
      requires Success?
    {
      value
    }
  }
}

/** The exceptions the scraper can meet, standing for the text `str(e)` that
    it stores as a ScrapeError message. */
module Errors {

  datatype Error =
    | Transport(message: string)   // requests.get / BeautifulSoup raised
    | FieldMissing(id: string)     // soup.find returned None, so `.contents` raised
    | BadInt(text: string)         // int(...) rejected the text
    | BadDecimal(text: string)     // Decimal(...) rejected the text
    | BadDate(text: string)        // datetime.strptime rejected the text
    | NotAnInteger(column: string) // an integer column was given a value int() rejects
    | NotADecimal(column: string)  // a decimal column was given a value Decimal() rejects
    | NullValue(column: string)    // None was written to a NOT NULL column
    | CapitalOverflow              // the capital does not fit 15 digits with 2 places
    | Duplicate(column: string)    // IntegrityError on a unique column
    | MissingCompany               // IntegrityError on the person -> company foreign key
}
