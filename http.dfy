/** Shared vocabulary of the backend: optional values, results, the
    HttpException the service layer throws, and the status codes and error
    messages the core uses. */
module Http {

  datatype Option<T> = None | Some(value: T)

  /** Either a value or an error; a thrown exception in the source becomes Err. */
  datatype Result<T, E> = Ok(value: T) | Err(error: E)

  /** An error carrying a message and an HTTP status code, as thrown by the
      service layer and by the token middleware. */
  datatype HttpException = HttpException(message: string, statusCode: nat)

  // Status codes used by the core (http-status / StatusCodesEnum).
  const OK: nat := 200
  const CREATED: nat := 201
  const BAD_REQUEST: nat := 400
  const UNAUTHORIZED: nat := 401
  const FORBIDDEN: nat := 403
  const NOT_FOUND: nat := 404
  const CONFLICT: nat := 409

  // Error messages used by the core.  The ErrorMessages enumeration is not
  // part of this model, so each message is represented by its member name.
  const PRODUCT_NOT_FOUND: string := "PRODUCT_NOT_FOUND"
  const PRODUCT_ALREADY_EXISTS: string := "PRODUCT_ALREADY_EXISTS"
  const UNAUTHENTICATED_USER: string := "UNAUTHENTICATED_USER"
  const INVALID_TOKEN: string := "INVALID_TOKEN"
  const UNAUTHORIZED_ACCESS: string := "UNAUTHORIZED_ACCESS"

  /** The service's "not found" error. */
  const NotFound: HttpException := HttpException(PRODUCT_NOT_FOUND, NOT_FOUND)

  /** The service's "already exists" error. */
  const AlreadyExists: HttpException := HttpException(PRODUCT_ALREADY_EXISTS, CONFLICT)
}
