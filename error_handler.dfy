/**
 * The server's error-to-response mapping (`server/errorHandler.js`): a chain
 * of `instanceof` tests, tried in order, each answering with a JSON body
 * `{message}` and a status; anything else is an internal error whose message
 * is fixed. An error is given by the set of classes it is an instance of
 * (a subclass instance belongs to its ancestors too) and its message.
 */
module ErrorHandler {
  import opened Wrappers

  datatype ErrorClass =
    | TimeLogNotFound
    | InvalidPasswordException
    | InvalidParameterException
    | UsernameExistsException

  datatype Error = Error(classes: set<ErrorClass>, message: string)

  datatype Response = Response(status: int, message: string)

  const InternalErrorMessage := "Error interno del servidor "

  /** `errorHandler(error)`. */
  function HandleError(e: Error): (r: Response)
    ensures r.status == 404 <==> TimeLogNotFound in e.classes
    ensures r.status == 400 <==> TimeLogNotFound !in e.classes
                                 && (InvalidPasswordException in e.classes
                                     || InvalidParameterException in e.classes
                                     || UsernameExistsException in e.classes)
    ensures r.status == 500 <==> e.classes == {}
    ensures r.status < 500 ==> r.message == e.message
    ensures r.status == 500 ==> r.message == InternalErrorMessage
  {
    if TimeLogNotFound in e.classes then Response(404, e.message)
    else if InvalidPasswordException in e.classes then Response(400, e.message)
    else if InvalidParameterException in e.classes then Response(400, e.message)
    else if UsernameExistsException in e.classes then Response(400, e.message)
    else
      NoClassLeft(e.classes);
      Response(500, InternalErrorMessage)
  }

  /** An error that belongs to none of the four classes belongs to none at all. */
  lemma NoClassLeft(classes: set<ErrorClass>)
    requires TimeLogNotFound !in classes && InvalidPasswordException !in classes
    requires InvalidParameterException !in classes && UsernameExistsException !in classes
    ensures classes == {}
  {
    forall c: ErrorClass ensures c !in classes {
      match c
      case TimeLogNotFound =>
      case InvalidPasswordException =>
      case InvalidParameterException =>
      case UsernameExistsException =>
    }
  }

  // ---------------------------------------------------------------------------
  // A table-driven reference: the first class of a fixed order that matches

  /** The order the tests are tried in. */
  const CheckOrder: seq<ErrorClass> :=
    [TimeLogNotFound, InvalidPasswordException, InvalidParameterException, UsernameExistsException]

  function StatusOf(c: ErrorClass): int {
    if c == TimeLogNotFound then 404 else 400
  }

  /** The first entry of `order` that `classes` contains. */
  function FirstMatch(order: seq<ErrorClass>, classes: set<ErrorClass>): (m: Option<ErrorClass>)
    ensures m.Some? ==> m.value in order && m.value in classes
    ensures m.None? ==> forall i :: 0 <= i < |order| ==> order[i] !in classes
  {
    if order == [] then None
    else if order[0] in classes then Some(order[0])
    else FirstMatch(order[1..], classes)
  }

  /**
   * The chain answers as the table does: the status of the first class in
   * `CheckOrder` the error belongs to with its own message, or 500 with the
   * fixed message when there is none.
   */
  lemma HandleErrorIsFirstMatch(e: Error)
    ensures HandleError(e) == match FirstMatch(CheckOrder, e.classes)
                              case Some(c) => Response(StatusOf(c), e.message)
                              case None => Response(500, InternalErrorMessage)
  {
    assert CheckOrder[1..] == [InvalidPasswordException, InvalidParameterException, UsernameExistsException];
    assert CheckOrder[1..][1..] == [InvalidParameterException, UsernameExistsException];
    assert CheckOrder[1..][1..][1..] == [UsernameExistsException];
    var cl := e.classes;
    assert FirstMatch(CheckOrder[1..][1..][1..], cl)
        == if UsernameExistsException in cl then Some(UsernameExistsException) else None;
    assert FirstMatch(CheckOrder[1..][1..], cl)
        == if InvalidParameterException in cl then Some(InvalidParameterException)
           else FirstMatch(CheckOrder[1..][1..][1..], cl);
  }

  /** Only the classes decide the status, and a 404 is never hidden by another class the error also has. */
  lemma NotFoundWins(e: Error, extra: set<ErrorClass>)
    requires TimeLogNotFound in e.classes
    ensures HandleError(Error(e.classes + extra, e.message)) == HandleError(e) == Response(404, e.message)
  {
  }
}
