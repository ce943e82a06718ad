/** The values the matching engine passes around, and the ways its calls can fail. */
module Orders {
  import opened FixedWidth

  const POOL_SIZE := 10000

  datatype Option<+T> = None | Some(value: T)

  datatype Result<+T> = Success(value: T) | Failure(error: Error) {
    predicate IsFailure() {
      Failure?
    }

    function PropagateFailure<U>(): Result<U>
      requires Failure?
    {
      Failure(error)
    }

    function Extract(): T
      requires Success?
    {
      value
    }

    /** The value u instead of this one, or this failure. */
    function Then<U>(u: U): Result<U> {
      match this
      case Success(_) => Success(u)
      case Failure(e) => Failure(e)
    }
  }

  /** One constructor for each throw statement of the source, and two for std::stoull. */
  datatype Error =
    | PoolExhausted
    | SlotOutOfBounds
    | NoBids
    | NoAsks
    | StaleBit
    | UnknownOrderId
    | InvalidOrderData
    | InvalidRequestData
    | NotAtFront
    | InvalidPrice
    | InvalidLevel
    | NoConversion
    | OutOfRange
  {
    /** Thrown as std::runtime_error; the other errors are kinds of std::logic_error or of a range error. */
    predicate IsRuntimeError() {
      PoolExhausted? || SlotOutOfBounds? || NoBids? || NoAsks? || StaleBit? || UnknownOrderId?
      || InvalidOrderData? || InvalidRequestData?
    }
  }

  datatype Side = Bid | Ask

  datatype Order = Order(side: Side, volume: u64, name: string, id: u64, price: u64)

  /** What a trade keeps once its two orders may be gone. */
  datatype Trade = Trade(volume: u64, price: u64)

  /** A slot of the table that cancels consult. */
  datatype Location = Location(price: u64, side: Side, isValid: bool)

  const DEFAULT_ORDER := Order(Bid, 0, "", 0, 0)
  const NO_LOCATION := Location(0, Bid, false)
}
