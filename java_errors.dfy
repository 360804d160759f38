/** The exceptions the Spring backend throws and how GlobalExceptionHandler
    (config/GlobalExceptionHandler.java) turns them into error bodies. Spring picks the
    handler declared for the nearest class on the thrown exception's superclass chain;
    the model walks that chain explicitly and proves the result against a flat table. */
module JavaErrors {
  import opened Options

  /** The exception classes that reach the handler. ResourceNotFoundException's own
      source file is not part of this model; it is taken to extend RuntimeException, as
      its use with `orElseThrow` in unchecked code requires. */
  datatype ExceptionClass =
    | ResourceNotFoundException
    | AccessDeniedException
    | BadCredentialsException
    | AuthenticationException
    | IllegalArgumentException
    | NullPointerException
    | StringIndexOutOfBoundsException
    | IndexOutOfBoundsException
    | DataIntegrityViolationException
    | DataAccessException
    | RuntimeException
    | IOException
    | Exception

  /** The direct superclass, up to `Exception`, the root of everything handled here. */
  function Superclass(c: ExceptionClass): (r: Option<ExceptionClass>)
    ensures r.None? <==> c == Exception
    ensures r.Some? ==> Depth(r.value) + 1 == Depth(c)
  {
    match c
    case ResourceNotFoundException => Some(RuntimeException)
    case AccessDeniedException => Some(RuntimeException)
    case BadCredentialsException => Some(AuthenticationException)
    case AuthenticationException => Some(RuntimeException)
    case IllegalArgumentException => Some(RuntimeException)
    case NullPointerException => Some(RuntimeException)
    case StringIndexOutOfBoundsException => Some(IndexOutOfBoundsException)
    case IndexOutOfBoundsException => Some(RuntimeException)
    case DataIntegrityViolationException => Some(DataAccessException)
    case DataAccessException => Some(RuntimeException)
    case RuntimeException => Some(Exception)
    case IOException => Some(Exception)
    case Exception => None
  }

  /** The number of superclass steps from `c` up to `Exception`. */
  function Depth(c: ExceptionClass): nat
  {
    match c
    case Exception => 0
    case RuntimeException | IOException => 1
    case BadCredentialsException | DataIntegrityViolationException | StringIndexOutOfBoundsException => 3
    case _ => 2
  }

  /** `c` is `d` or a subclass of it. */
  predicate IsA(c: ExceptionClass, d: ExceptionClass)
    decreases Depth(c)
  {
    c == d || (Superclass(c).Some? && IsA(Superclass(c).value, d))
  }

  /** The classes GlobalExceptionHandler declares an `@ExceptionHandler` for. */
  predicate Handled(c: ExceptionClass)
  {
    c in {ResourceNotFoundException, RuntimeException, AccessDeniedException,
          BadCredentialsException, IllegalArgumentException, NullPointerException, Exception}
  }

  /** The handler Spring selects: the first handled class met walking up from `c`. */
  function HandlerFor(c: ExceptionClass): (h: ExceptionClass)
    ensures Handled(h) && IsA(c, h)
    decreases Depth(c)
  {
    if Handled(c) then c else HandlerFor(Superclass(c).value)
  }

  /** Every handled class `c` belongs to lies at or above the selected handler, so the
      selected one is the most specific. */
  lemma {:induction false} HandlerIsNearest(c: ExceptionClass, d: ExceptionClass)
    requires Handled(d) && IsA(c, d)
    ensures Depth(d) <= Depth(HandlerFor(c))
    decreases Depth(c)
  {
    if !Handled(c) {
      assert c != d;
      HandlerIsNearest(Superclass(c).value, d);
    }
  }

  /** A thrown exception. `message` is None when its text is built by code outside the
      model (a JDBC driver, ResourceNotFoundException's own formatting). */
  datatype Thrown = Thrown(cls: ExceptionClass, message: Option<string>)

  /** `throw new RuntimeException(message)`, the services' usual failure. */
  function Fail(message: string): (t: Thrown)
    ensures t.cls == RuntimeException && t.message == Some(message)
  {
    Thrown(RuntimeException, Some(message))
  }

  /** What a service call produced: its value, or the exception it threw. */
  datatype Outcome<T> = Ok(value: T) | Threw(ex: Thrown)

  /** The JSON error body and its status. `message` None stands for the exception's
      own text where the model does not fix it. */
  datatype ErrorBody = ErrorBody(status: int, success: bool, message: Option<string>)

  const AccessDeniedText := "Access denied: You don't have permission to perform this action"
  const BadCredentialsText := "Invalid email or password"
  const MissingDataText := "Required data is missing"
  const UnexpectedText := "An unexpected error occurred"

  /** The response the selected handler builds. */
  function Handle(t: Thrown): ErrorBody
  {
    match HandlerFor(t.cls)
    case ResourceNotFoundException => ErrorBody(404, false, t.message)
    case AccessDeniedException => ErrorBody(403, false, Some(AccessDeniedText))
    case BadCredentialsException => ErrorBody(401, false, Some(BadCredentialsText))
    case IllegalArgumentException => ErrorBody(400, false, t.message)
    case NullPointerException => ErrorBody(500, false, Some(MissingDataText))
    case RuntimeException => ErrorBody(400, false, t.message)
    case _ => ErrorBody(500, false, Some(UnexpectedText))
  }

  /** The status each class ends with, written out class by class. */
  function StatusTable(c: ExceptionClass): int
  {
    match c
    case ResourceNotFoundException => 404
    case AccessDeniedException => 403
    case BadCredentialsException => 401
    case NullPointerException | IOException | Exception => 500
    case _ => 400
  }

  /** The text each class ends with: its own message, or the handler's fixed one. */
  function MessageTable(t: Thrown): Option<string>
  {
    match t.cls
    case AccessDeniedException => Some(AccessDeniedText)
    case BadCredentialsException => Some(BadCredentialsText)
    case NullPointerException => Some(MissingDataText)
    case IOException | Exception => Some(UnexpectedText)
    case _ => t.message
  }

  /** The handler walk agrees with the flat tables, and every body says `success = false`. */
  lemma HandleMatchesTable(t: Thrown)
    ensures Handle(t) == ErrorBody(StatusTable(t.cls), false, MessageTable(t))
  {
  }

  /** A 500 comes exactly from a NullPointerException or from an exception outside the
      RuntimeException family. */
  lemma ServerErrorsAreUnchecked(t: Thrown)
    ensures Handle(t).status == 500 <==> t.cls == NullPointerException || !IsA(t.cls, RuntimeException)
  {
  }
}
