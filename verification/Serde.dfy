/** Domain events on their way to the outbox and the bus, and back. JSON objects
    are maps from key to string. */
module Serde {
  import opened Wrappers
  import opened LinkDomain

  datatype Json = Object(fields: map<string, string>) | Malformed

  datatype IdText = Uuid(id: Id) | NotAnId(text: string)

  datatype Envelope = Envelope(eventId: IdText, aggregateId: IdText, eventType: string, payload: Json)

  const EVENT_TYPE_LINK_CREATED := "link.created"
  const EVENT_TYPE_LINK_DISABLED := "link.disabled"
  const EVENT_TYPE_LINK_CLICKED := "link.clicked"

  datatype Payload = Payload(shortCode: string, longUrl: string)

  /** `long_url` is omitted when empty. */
  function MarshalPayload(p: Payload): Json {
    if p.longUrl == "" then Object(map["short_code" := p.shortCode])
    else Object(map["short_code" := p.shortCode, "long_url" := p.longUrl])
  }

  /** Absent keys read as empty strings. */
  function UnmarshalPayload(j: Json): Option<Payload> {
    if j.Malformed? then None
    else Some(Payload(Field(j.fields, "short_code"), Field(j.fields, "long_url")))
  }

  function Field(fields: map<string, string>, key: string): string {
    if key in fields then fields[key] else ""
  }

  function EventType(e: DomainEvent): string {
    match e
    case LinkCreated(_, _, _, _) => EVENT_TYPE_LINK_CREATED
    case LinkDisabled(_, _, _) => EVENT_TYPE_LINK_DISABLED
    case LinkClicked(_, _, _) => EVENT_TYPE_LINK_CLICKED
  }

  /** The outbox row's serialized columns, which the relay copies into its envelope. */
  function ToEnvelope(e: DomainEvent): Envelope {
    var payload := if e.LinkCreated? then Payload(e.code, e.url) else Payload(e.code, "");
    Envelope(Uuid(e.id), Uuid(e.aggregateId), EventType(e), MarshalPayload(payload))
  }

  /** The wire format, field by field. */
  lemma WireFormat(e: DomainEvent)
    ensures var env := ToEnvelope(e);
            && env.eventId == Uuid(e.id) && env.aggregateId == Uuid(e.aggregateId)
            && env.eventType == (match e
                                 case LinkCreated(_, _, _, _) => "link.created"
                                 case LinkDisabled(_, _, _) => "link.disabled"
                                 case LinkClicked(_, _, _) => "link.clicked")
            && env.payload == Object(if e.LinkCreated? && e.url != ""
                                     then map["short_code" := e.code, "long_url" := e.url]
                                     else map["short_code" := e.code])
  {
  }

  /** What the projector's dispatch makes of an envelope. */
  datatype Projection =
    | SetLink(code: Code, url: Url)
    | DropLink(code: Code)
    | CountClickOf(eventId: Id, code: Code)
    | Poison

  function Interpret(env: Envelope): Projection {
    match UnmarshalPayload(env.payload)
    case None => Poison
    case Some(p) =>
      if env.eventType == EVENT_TYPE_LINK_CREATED then SetLink(p.shortCode, p.longUrl)
      else if env.eventType == EVENT_TYPE_LINK_DISABLED then DropLink(p.shortCode)
      else if env.eventType == EVENT_TYPE_LINK_CLICKED then
        match env.eventId
        case Uuid(id) => CountClickOf(id, p.shortCode)
        case NotAnId(_) => Poison
      else Poison
  }

  /** No message that came out of the outbox is poison, and the projector reads in
      it exactly the event that was raised. */
  lemma OutboxMessagesAreRead(e: DomainEvent)
    ensures Interpret(ToEnvelope(e)) == match e
                                        case LinkCreated(_, _, code, url) => SetLink(code, url)
                                        case LinkDisabled(_, _, code) => DropLink(code)
                                        case LinkClicked(id, _, code) => CountClickOf(id, code)
  {
  }

  function ToEnvelopes(events: seq<DomainEvent>): (envs: seq<Envelope>)
    ensures |envs| == |events|
  {
    seq(|events|, i requires 0 <= i < |events| => ToEnvelope(events[i]))
  }
}
