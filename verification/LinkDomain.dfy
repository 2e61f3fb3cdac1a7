/** The link bounded context of the URL shortener: value objects, domain events
    and the Link aggregate root. UUIDs are natural numbers; whoever mints one
    passes it in. */
module LinkDomain {
  import opened Wrappers

  type Id = nat
  type Code = string
  type Url = string

  datatype LinkStatus = Active | Disabled

  datatype LinkError =
    | InvalidUrl
    | InvalidShortCode
    | LinkNotFound
    | LinkAlreadyDisabled
    | ReadFailed
    | SaveFailed
    | ShortCodeExhausted
    | GeneratorFailed

  datatype DomainEvent =
    | LinkCreated(id: Id, aggregateId: Id, code: Code, url: Url)
    | LinkDisabled(id: Id, aggregateId: Id, code: Code)
    | LinkClicked(id: Id, aggregateId: Id, code: Code)

  const SHORT_CODE_LENGTH := 7
  const SHORT_CODE_ALPHABET := "0123456789" + "ABCDEFGHIJKLMNOPQRSTUVWXYZ" + "abcdefghijklmnopqrstuvwxyz"

  /** The format invariant of a short code: fixed length, base62. */
  predicate IsShortCode(raw: string) {
    |raw| == SHORT_CODE_LENGTH && forall i :: 0 <= i < |raw| ==> raw[i] in SHORT_CODE_ALPHABET
  }

  lemma IsDigit(c: char)
    ensures c in "0123456789" <==> '0' <= c <= '9'
  {
  }

  lemma IsUpper(c: char)
    ensures c in "ABCDEFGHIJKLMNOPQRSTUVWXYZ" <==> 'A' <= c <= 'Z'
  {
  }

  lemma IsLower(c: char)
    ensures c in "abcdefghijklmnopqrstuvwxyz" <==> 'a' <= c <= 'z'
  {
  }

  /** Seven characters, each a digit or a letter of the English alphabet, and nothing else. */
  lemma ShortCodeExact(raw: string)
    ensures IsShortCode(raw)
       <==> |raw| == 7
            && forall i :: 0 <= i < 7 ==> '0' <= raw[i] <= '9' || 'A' <= raw[i] <= 'Z' || 'a' <= raw[i] <= 'z'
  {
    forall i | 0 <= i < |raw|
      ensures raw[i] in SHORT_CODE_ALPHABET
         <==> '0' <= raw[i] <= '9' || 'A' <= raw[i] <= 'Z' || 'a' <= raw[i] <= 'z'
    {
      IsDigit(raw[i]);
      IsUpper(raw[i]);
      IsLower(raw[i]);
    }
  }

  /** Aggregate root. Its state changes only through Disable and PullEvents. */
  class Link {
    const id: Id
    const code: Code
    const url: Url
    var status: LinkStatus
    var version: int
    var events: seq<DomainEvent>

    /** Rebuilds an aggregate from persisted state without raising events. */
    constructor Reconstitute(id: Id, code: Code, url: Url, status: LinkStatus, version: int)
      ensures this.id == id && this.code == code && this.url == url
      ensures this.status == status && this.version == version && this.events == []
    {
      this.id, this.code, this.url := id, code, url;
      this.status, this.version, this.events := status, version, [];
    }

    method Record(e: DomainEvent)
      modifies this`events
      ensures events == old(events) + [e]
    {
      events := events + [e];
    }

    /** A disabled link cannot be disabled again; success raises exactly one LinkDisabled. */
    method Disable(eventId: Id) returns (r: Result<(), LinkError>)
      modifies this
      ensures r.Err? <==> old(status) == Disabled
      ensures r.Err? ==> r.error == LinkAlreadyDisabled && unchanged(this)
      ensures status == Disabled
      ensures r.Ok? ==> version == old(version) + 1 && events == old(events) + [LinkDisabled(eventId, id, code)]
    {
      if status.Disabled? {
        return Err(LinkAlreadyDisabled);
      }
      status := Disabled;
      version := version + 1;
      Record(LinkDisabled(eventId, id, code));
      return Ok(());
    }

    /** Returns the pending events and clears them. */
    method PullEvents() returns (pulled: seq<DomainEvent>)
      modifies this`events
      ensures pulled == old(events) && events == []
    {
      pulled := events;
      events := [];
    }
  }

  /** A new link is active, has version 1 and one pending LinkCreated. */
  method NewLink(code: Code, url: Url, id: Id, eventId: Id) returns (r: Result<Link, LinkError>)
    ensures r.Ok? <==> code != "" && url != ""
    ensures r.Err? ==> r.error == if code == "" then InvalidShortCode else InvalidUrl
    ensures r.Ok? ==>
              && fresh(r.value) && r.value.id == id && r.value.code == code && r.value.url == url
              && r.value.status == Active && r.value.version == 1
              && r.value.events == [LinkCreated(eventId, id, code, url)]
  {
    if code == "" {
      return Err(InvalidShortCode);
    }
    if url == "" {
      return Err(InvalidUrl);
    }
    var l := new Link.Reconstitute(id, code, url, Active, 1);
    l.Record(LinkCreated(eventId, id, code, url));
    return Ok(l);
  }
}
