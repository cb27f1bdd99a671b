/**
 * The error-handling middleware: it answers with the error's status, or 500
 * when the status is missing or 0, and the error's message, or a fixed text
 * when the message is missing or empty; the body repeats both and the next
 * handler is never called. The error classes of the application are the
 * constructors below.
 */
module ErrorMiddleware {
  import opened Wrappers
  import opened Json

  /** An error as the middleware reads it; `None` stands for an undefined property. */
  datatype HttpException = HttpException(status: Option<int>, message: Option<string>)

  const DefaultStatus: int := 500
  const DefaultMessage: string := "Something went wrong!"

  /** What is sent: `res.status(statusCode).send(body)`. */
  datatype Sent = Sent(statusCode: int, body: map<string, Json>)

  /** `new HttpException(status, message)`. */
  function NewHttpException(status: int, message: string): HttpException {
    HttpException(Some(status), Some(message))
  }

  /** `new UserNotFoundException(username)`. */
  function UserNotFoundException(username: string): HttpException {
    NewHttpException(404, "User with username " + username + " Not Found!")
  }

  /** `new UpdatesNotFoundException()`. */
  function UpdatesNotFoundException(): HttpException {
    NewHttpException(400, "No Updates Sent!")
  }

  /** `new WrongUpdatesException()`. */
  function WrongUpdatesException(): HttpException {
    NewHttpException(400, "Incorrect Updates!")
  }

  /** `err.status || 500`: 0 and undefined are falsy. */
  function StatusOf(err: HttpException): (s: int)
    ensures s != 0
    ensures err.status.Some? && err.status.value != 0 ==> s == err.status.value
    ensures !(err.status.Some? && err.status.value != 0) ==> s == DefaultStatus
  {
    if err.status.Some? && err.status.value != 0 then err.status.value else DefaultStatus
  }

  /** `err.message || "Something went wrong!"`: the empty string and undefined are falsy. */
  function MessageOf(err: HttpException): (m: string)
    ensures m != ""
    ensures err.message.Some? && err.message.value != "" ==> m == err.message.value
    ensures !(err.message.Some? && err.message.value != "") ==> m == DefaultMessage
  {
    if err.message.Some? && err.message.value != "" then err.message.value else DefaultMessage
  }

  /** `errorMiddleware`: the response to an error. */
  function Handle(err: HttpException): (res: Sent)
    ensures res.body.Keys == {"status", "message"}
    ensures res.body["status"] == JNum(res.statusCode)
    ensures res.statusCode == (if err.status.Some? && err.status.value != 0 then err.status.value else 500)
    ensures res.body["message"]
            == JStr(if err.message.Some? && err.message.value != "" then err.message.value else DefaultMessage)
  {
    var status := StatusOf(err);
    var message := MessageOf(err);
    Sent(status, map["status" := JNum(status), "message" := JStr(message)])
  }

  /** Handling the error the response describes gives the same response again. */
  lemma HandleIsFixpoint(err: HttpException)
    ensures var res := Handle(err);
            Handle(NewHttpException(res.statusCode, res.body["message"].s)) == res
  {
  }

  /** The application's own errors reach the client unchanged. */
  lemma TaxonomyPassesThrough(username: string)
    ensures Handle(UserNotFoundException(username)).statusCode == 404
    ensures Handle(UserNotFoundException(username)).body["message"]
            == JStr("User with username " + username + " Not Found!")
    ensures Handle(UpdatesNotFoundException()) == Sent(400, map["status" := JNum(400), "message" := JStr("No Updates Sent!")])
    ensures Handle(WrongUpdatesException()) == Sent(400, map["status" := JNum(400), "message" := JStr("Incorrect Updates!")])
  {
  }

  /** An error without status or message gets 500 and the fixed text. */
  lemma BareErrorDefaults(err: HttpException)
    requires err.status in {None, Some(0)} && err.message in {None, Some("")}
    ensures Handle(err) == Sent(500, map["status" := JNum(500), "message" := JStr(DefaultMessage)])
  {
  }
}
