/** Shared vocabulary of the model: the exceptions the client raises, a
    Result type that carries them, bytes, 16-bit words and the truncating
    float-to-int conversion. */
module Base {

  /** The exceptions the modelled code raises or stores in a pending result. */
  datatype Error =
    | ValueError              // bad varint value or width, bad command code, CRC mismatch
    | KeyError                // width missing from the struct tables; pop from an empty store
    | StructError             // struct.pack value out of range, struct.unpack of a short buffer
    | IndexError              // indexing the first byte of an empty buffer
    | TypeError               // set_error with something that is not an exception
    | AssertionError          // a failed `assert` in the frame handlers or in get()
    | TimeoutError            // a wait on a result that was never resolved
    | ConnectionClosedError   // end of stream, or a result failed because the connection closed
    | ConnectionBroken        // any other ConnectionError raised by the socket (reset, broken pipe)
    | OSError                 // a socket error that is not a ConnectionError (writing to a closed socket)
    | AckRejected(code: int)  // a server ack carrying a non-zero code

  /** ConnectionClosedError and the socket's reset/broken-pipe errors are
      ConnectionErrors; every other kind is not. */
  predicate IsConnectionError(e: Error) {
    e.ConnectionClosedError? || e.ConnectionBroken?
  }

  datatype Option<+T> = None | Some(value: T)

  /** The value of an operation, or the exception it raised. */
  datatype Result<+T> = Ok(value: T) | Err(error: Error) {
    predicate IsFailure() {
      Err?
    }

    function PropagateFailure<U>(): Result<U>
      requires Err?
    {
      Err(error)
    }

    function Extract(): T
      requires Ok?
    {
      value
    }
  }

  type Byte = x: int | 0 <= x < 256

  type U16 = x: int | 0 <= x < 0x1_0000

  /** The position tuple the gpsd reader hands to the sender: degrees,
      speed, track and altitude as floats (exact reals here), the number of
      satellites used, and the horizontal dilution of precision. */
  datatype Fix = Fix(lat: real, lon: real, speed: real, track: real, alt: real, stats: int, hdop: real)

  /** Python's `int(x)` on a float: truncation toward zero. Floats are
      modelled as exact reals. */
  function Trunc(x: real): (r: int)
    ensures x >= 0.0 ==> r as real <= x < r as real + 1.0
    ensures x < 0.0 ==> r as real - 1.0 < x <= r as real
  {
    if x >= 0.0 then x.Floor else -((-x).Floor)
  }
}
