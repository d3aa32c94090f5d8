/** The inference bridge (controllers/chat_controller.go, `callN8NWebhook` and
    `N8NResponse.GetResponse`): the outgoing request and the normalisation of
    the webhook's answer into one reply. The HTTP exchange and JSON parsing are
    outside the model; the answer arrives as a status, the raw body text and
    the shape the body decoded to. */
module Webhook {
  import opened Wrappers
  import opened Models
  import opened Http
  import opened Text

  /** What is posted to the webhook: the user's turn, the conversation id as
      hex, and the history window. */
  datatype WebhookRequest = WebhookRequest(
    message: string,
    conversationId: string,
    history: seq<Message>)

  /** One reply object: `output` is the field the webhook fills, `response`
      the older alternative; `metadata` is nil when absent. */
  datatype WebhookReply = WebhookReply(
    output: string,
    response: string,
    metadata: Option<Metadata>)

  /** The reply a JSON `null` (or a `null` array element) decodes to. */
  const EmptyReply := WebhookReply("", "", None)

  /** What the response body decodes to.
      - `ReplyArray`: a JSON array whose elements all decode as reply objects
        (a `null` element decodes as `EmptyReply`);
      - `ReplyObject`: a JSON object that decodes as a reply (unknown fields ignored);
      - `JsonNull`: the literal `null`;
      - `Unparseable`: anything else (not JSON, a scalar, an array with a
        non-object element, a field of the wrong type), with the decoder's
        error text for the single-object attempt. */
  datatype BodyShape =
    | ReplyArray(items: seq<WebhookReply>)
    | ReplyObject(reply: WebhookReply)
    | JsonNull
    | Unparseable(decodeError: string)

  /** The result of posting to the webhook. */
  datatype HttpOutcome =
    | TransportFailure(reason: string)
    | HttpResponse(status: int, raw: string, shape: BodyShape)

  /** Why the bridge produced no reply. `Transport` also covers a failure to
      read the body of a 200 answer. */
  datatype BridgeError =
    | Transport(reason: string)
    | BadStatus(status: int, body: string)
    | BadReply(decodeError: string, body: string)

  /** The decoder's complaint when an array is decoded as a single reply object. */
  const ArrayIntoObjectError := "json: cannot unmarshal array into Go value of type controllers.N8NResponse"

  /** The error text the bridge reports. */
  function BridgeErrorText(e: BridgeError): string {
    match e
    case Transport(reason) => reason
    case BadStatus(status, body) => "n8n retornou status " + IntToString(status) + ": " + body
    case BadReply(decodeError, body) =>
      "erro ao parsear resposta do n8n: " + decodeError + " (body: " + body + ")"
  }

  /** `GetResponse`: the first non-empty of `output` and `response`. */
  function EffectiveText(r: WebhookReply): (t: string)
    ensures t == r.output || t == r.response
    ensures r.output != "" ==> t == r.output
    ensures t == "" <==> r.output == "" && r.response == ""
  {
    if r.output != "" then r.output else r.response
  }

  /** Normalising the webhook's answer into one reply:
      a status other than 200 is an error carrying the status and the body;
      a non-empty array yields its first element; otherwise the body must
      decode as a single object (`null` decodes as an empty one). */
  function DecodeReply(o: HttpOutcome): (r: Result<WebhookReply, BridgeError>)
    ensures o.TransportFailure? ==> r == Err(Transport(o.reason))
    ensures o.HttpResponse? && o.status != StatusOK ==> r == Err(BadStatus(o.status, o.raw))
    ensures r.Ok? ==> o.HttpResponse? && o.status == StatusOK
    ensures r.Ok? <==> (o.HttpResponse? && o.status == StatusOK &&
      match o.shape
      case ReplyArray(items) => |items| > 0
      case ReplyObject(_) => true
      case JsonNull => true
      case Unparseable(_) => false)
    ensures r.Ok? && o.shape.ReplyArray? ==> r.value == o.shape.items[0]
    ensures r.Ok? && o.shape.ReplyObject? ==> r.value == o.shape.reply
    ensures r.Ok? && o.shape.JsonNull? ==> r.value == EmptyReply
    ensures r.Err? && o.HttpResponse? && o.status == StatusOK ==> r.error.BadReply? && r.error.body == o.raw
  {
    match o
    case TransportFailure(reason) => Err(Transport(reason))
    case HttpResponse(status, raw, shape) =>
      if status != StatusOK then Err(BadStatus(status, raw))
      else
        match shape
        case ReplyArray(items) =>
          // An array decodes as a slice; an empty one falls through to the
          // object attempt, which an array can never satisfy.
          if |items| > 0 then Ok(items[0]) else Err(BadReply(ArrayIntoObjectError, raw))
        case ReplyObject(reply) => Ok(reply)
        case JsonNull => Ok(EmptyReply)
        case Unparseable(decodeError) => Err(BadReply(decodeError, raw))
  }

  /** A one-element array and the bare object carry the same reply, hence the same text. */
  lemma ArrayAndObjectAgree(raw1: string, raw2: string, reply: WebhookReply, rest: seq<WebhookReply>)
    ensures DecodeReply(HttpResponse(StatusOK, raw1, ReplyArray([reply] + rest)))
         == DecodeReply(HttpResponse(StatusOK, raw2, ReplyObject(reply)))
  {
  }
}
