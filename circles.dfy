/** A circle row, the request bodies of the circle handlers, the
    authorization rules they apply, and the truthy-override merge of the
    edit handler. Everything here is a pure function of the caller, the
    request and the stored rows. */
module Circles {

  datatype Option<T> = None | Some(value: T)

  /** A row of the circles table (without its generated id). Dates are kept
      as the text the client sends. */
  datatype Circle = Circle(
    hostId: int,
    title: string,
    description: string,
    participantsLimit: int,
    startDate: string,
    isLive: bool,
    isEnded: bool)

  /** The participants limit stored when the create request omits one. */
  const DefaultParticipantsLimit: int := 100

  /** The body of a create request. `hostId` is the result of `int(host_id)`:
      None when that call raises (the field is missing or cannot be parsed). The host is taken to
      be sent as an integer, so the value checked is also the value stored.
      `participantsLimit` is None when the field is absent. */
  datatype AddRequest = AddRequest(
    hostId: Option<int>,
    title: string,
    description: string,
    participantsLimit: Option<int>,
    startDate: string)

  /** The body of an edit request; None stands for an absent or null field. */
  datatype EditRequest = EditRequest(
    circleId: int,
    title: Option<string>,
    description: Option<string>,
    participantsLimit: Option<int>,
    startDate: Option<string>,
    isLive: Option<bool>,
    isEnded: Option<bool>)

  /** What a handler answers. NotFound is the "no circle found" reply, which
      the handlers send with HTTP 400; Unauthorized is HTTP 403; BadRequest
      is the generic HTTP 400 of the catch-all error path. */
  datatype Status = Ok | NotFound | Unauthorized | BadRequest

  /** The decision of an ownership check over a looked-up circle. */
  datatype Gate = Allow | Missing | Deny

  /** The circle a create request would insert. */
  function NewCircle(req: AddRequest): (c: Circle)
    requires req.hostId.Some?
    ensures c.hostId == req.hostId.value
    ensures c.title == req.title && c.description == req.description && c.startDate == req.startDate
    ensures req.participantsLimit.None? ==> c.participantsLimit == DefaultParticipantsLimit
    ensures req.participantsLimit.Some? ==> c.participantsLimit == req.participantsLimit.value
    ensures !c.isLive && !c.isEnded
  {
    Circle(req.hostId.value, req.title, req.description,
           match req.participantsLimit
           case None => DefaultParticipantsLimit
           case Some(n) => n,
           req.startDate, false, false)
  }

  /** The ownership check of the edit and tag handlers: a missing circle is
      reported first; otherwise only the host passes. */
  function HostGate(circles: map<int, Circle>, callerId: int, circleId: int): (g: Gate)
    ensures g == Missing <==> circleId !in circles
    ensures g == Allow <==> circleId in circles && circles[circleId].hostId == callerId
  {
    if circleId !in circles then Missing
    else if callerId != circles[circleId].hostId then Deny
    else Allow
  }

  /** The ownership check of the delete handler: a missing circle is
      reported first; otherwise the host and any admin pass. */
  function DeleteGate(circles: map<int, Circle>, callerId: int, role: string, circleId: int): (g: Gate)
    ensures g == Missing <==> circleId !in circles
    ensures g == Allow <==> circleId in circles && (circles[circleId].hostId == callerId || role == "admin")
    ensures HostGate(circles, callerId, circleId) == Allow ==> g == Allow
  {
    if circleId !in circles then Missing
    else if callerId != circles[circleId].hostId && role != "admin" then Deny
    else Allow
  }

  /** Whether a supplied field is truthy, `falsy` being the one falsy value
      of its type ("" for text, 0 for numbers, false for booleans). */
  predicate Truthy<T(==)>(supplied: Option<T>, falsy: T) {
    supplied.Some? && supplied.value != falsy
  }

  /** `supplied or stored`. */
  function Or<T(==)>(supplied: Option<T>, stored: T, falsy: T): T {
    if Truthy(supplied, falsy) then supplied.value else stored
  }

  /** The row the edit handler writes back. Every field either keeps its
      stored value or takes a truthy supplied value, and does the latter
      exactly when the supplied value is truthy; so the host never changes,
      a live or ended circle stays so, and no field that was truthy can be
      made falsy. */
  function ApplyEdit(c: Circle, req: EditRequest): (r: Circle)
    ensures r.hostId == c.hostId
    ensures r.title != c.title ==> req.title == Some(r.title) && r.title != ""
    ensures Truthy(req.title, "") ==> r.title == req.title.value
    ensures r.description != c.description ==> req.description == Some(r.description) && r.description != ""
    ensures Truthy(req.description, "") ==> r.description == req.description.value
    ensures r.participantsLimit != c.participantsLimit ==>
              req.participantsLimit == Some(r.participantsLimit) && r.participantsLimit != 0
    ensures Truthy(req.participantsLimit, 0) ==> r.participantsLimit == req.participantsLimit.value
    ensures r.startDate != c.startDate ==> req.startDate == Some(r.startDate) && r.startDate != ""
    ensures Truthy(req.startDate, "") ==> r.startDate == req.startDate.value
    ensures r.isLive == (c.isLive || req.isLive == Some(true))
    ensures r.isEnded == (c.isEnded || req.isEnded == Some(true))
  {
    c.(title := Or(req.title, c.title, ""),
       description := Or(req.description, c.description, ""),
       participantsLimit := Or(req.participantsLimit, c.participantsLimit, 0),
       startDate := Or(req.startDate, c.startDate, ""),
       isLive := Or(req.isLive, c.isLive, false),
       isEnded := Or(req.isEnded, c.isEnded, false))
  }

  /** The row after a series of edits, applied in order. */
  function ApplyEdits(c: Circle, reqs: seq<EditRequest>): Circle
    decreases |reqs|
  {
    if reqs == [] then c else ApplyEdits(ApplyEdit(c, reqs[0]), reqs[1..])
  }

  /** Whatever edits are applied: the host stays; a live or ended circle
      stays so; a non-empty title, description or date and a non-zero limit
      stay non-empty and non-zero. */
  lemma {:induction false} EditsPreserve(c: Circle, reqs: seq<EditRequest>)
    ensures ApplyEdits(c, reqs).hostId == c.hostId
    ensures c.isLive ==> ApplyEdits(c, reqs).isLive
    ensures c.isEnded ==> ApplyEdits(c, reqs).isEnded
    ensures c.title != "" ==> ApplyEdits(c, reqs).title != ""
    ensures c.description != "" ==> ApplyEdits(c, reqs).description != ""
    ensures c.participantsLimit != 0 ==> ApplyEdits(c, reqs).participantsLimit != 0
    ensures c.startDate != "" ==> ApplyEdits(c, reqs).startDate != ""
    decreases |reqs|
  {
    if reqs != [] {
      EditsPreserve(ApplyEdit(c, reqs[0]), reqs[1..]);
    }
  }

  /** Sending the same edit twice has the effect of sending it once. */
  lemma EditIdempotent(c: Circle, req: EditRequest)
    ensures ApplyEdit(ApplyEdit(c, req), req) == ApplyEdit(c, req)
  {
  }

  /** An edit whose fields are all absent or falsy writes back the stored
      row unchanged. */
  lemma FalsyEditIsNoop(c: Circle, req: EditRequest)
    requires !Truthy(req.title, "") && !Truthy(req.description, "")
    requires !Truthy(req.participantsLimit, 0) && !Truthy(req.startDate, "")
    requires !Truthy(req.isLive, false) && !Truthy(req.isEnded, false)
    ensures ApplyEdit(c, req) == c
  {
  }
}
