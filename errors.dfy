/**
 * Outcomes of the controller's operations. An exception the controller
 * throws is an Error value: an HttpException carrying an HTTP status code
 * and a message, or the LogicException raised for a missing input-data class.
 */
module Errors {

  /** 201 Created, section 15.3.2 of RFC 9110. */
  const StatusCreated := 201
  /** 400 Bad Request, section 15.5.1 of RFC 9110. */
  const StatusBadRequest := 400
  /** 501 Not Implemented, section 15.6.2 of RFC 9110. */
  const StatusNotImplemented := 501

  datatype Error =
    | HttpException(status: int, message: string)
    | LogicException(message: string)

  datatype Option<T> = None | Some(value: T)

  datatype Result<T> = Ok(value: T) | Err(error: Error)
}
