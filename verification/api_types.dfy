/** What the HTTP handlers of server/controller/api.go, server/api_controller.go
    and server/server.go share: the session they run under, the outcome they
    report, and the moderation-log entries they queue. */
module ApiTypes {
  import opened Wrappers
  import opened GoStrings
  import opened Ledger

  /** The three generations of the handlers: `API` in server/controller/api.go,
      `APIController` in server/api_controller.go, and the free functions of
      server/server.go. */
  datatype Variant = Controller | ApiController | LegacyServer

  /** The kinds of result a handler writes. */
  datatype Status = OK | NotFound | NotAuthorized | BadRequest | InternalError

  /** The verbs and object kinds of the moderation log. */
  datatype Verb = PromoteAsModerator | DemoteAsModerator | Ban | Unban | Create | Delete | Censor | Uncensor
  datatype ObjectKind = UserObject | ImageObject | TagObject | LinkObject

  /** An entry handed to `QueueModerationEntry`: who acted, the verb, the kind
      of object and the names of the object. */
  datatype Moderation = Moderation(userId: int, verb: Verb, kind: ObjectKind, nouns: seq<String>)

  /** The session a handler runs under: the user id, and the user record read when the session was loaded. */
  datatype Session = Session(userId: int, user: User)

  /** A handler's outcome: the status, the JSON body if there is one, the
      database its statements leave behind, and the moderation entries it
      queued, in order. */
  datatype Response<T> = Response(status: Status, body: Option<T>, db: Db, queued: seq<Moderation>)

  /** An outcome without body, statements or moderation entries. */
  function Refused<T>(status: Status, db: Db): Response<T> {
    Response(status, None, db, [])
  }

  /** Who may delete an image, a tag or a link: a moderator, or the user who
      created the image or tag. */
  predicate MayDelete(currentUser: User, createdBy: int) {
    currentUser.isModerator || createdBy == currentUser.id
  }
}
