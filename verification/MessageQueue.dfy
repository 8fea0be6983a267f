/** `app/core/message_queue.py`: the message a redirect publishes, and the lossy publisher. */
module MessageQueue {
  import opened Common
  import opened ClickEvents
  import opened EventProcessing

  function TextOrNull(value: Option<string>): Json {
    match value
    case Some(text) => Text(text)
    case None => Null
  }

  /** `build_click_event_message`: a fresh event id and the raw request headers. */
  function BuildClickEventMessage(
    eventId: string, urlId: int, userAgent: Option<string>, referrer: Option<string>, occurredAt: string): Json
  {
    Object(map[
      "event_id" := Text(eventId),
      "url_id" := Number(urlId),
      "user_agent" := TextOrNull(userAgent),
      "referrer" := TextOrNull(referrer),
      "occurred_at" := Text(occurredAt)])
  }

  /** The message has exactly five fields, and null for an absent header. */
  lemma BuiltMessageHolds(eventId: string, urlId: int, userAgent: Option<string>, referrer: Option<string>, occurredAt: string)
    ensures BuildClickEventMessage(eventId, urlId, userAgent, referrer, occurredAt).Object?
    ensures var fields := BuildClickEventMessage(eventId, urlId, userAgent, referrer, occurredAt).fields;
            && fields.Keys == {"event_id", "url_id", "user_agent", "referrer", "occurred_at"}
            && fields["event_id"] == Text(eventId) && fields["url_id"] == Number(urlId) && fields["occurred_at"] == Text(occurredAt)
            && fields["user_agent"] == (if userAgent.Some? then Text(userAgent.value) else Null)
            && fields["referrer"] == (if referrer.Some? then Text(referrer.value) else Null)
  {
    assert |"event_id"| == 8 && |"url_id"| == 6 && |"user_agent"| == 10 && |"referrer"| == 8 && |"occurred_at"| == 11;
    assert "event_id"[0] != "referrer"[0];
  }

  /** The worker reads back exactly what the redirect wrote: never malformed, never an escaping exception. */
  lemma BuiltMessageIsEvent(
    parse: UserAgentParser, eventId: string, urlId: int, userAgent: Option<string>, referrer: Option<string>, occurredAt: string)
    ensures Check(parse, Parsed(BuildClickEventMessage(eventId, urlId, userAgent, referrer, occurredAt)))
         == Event(Columns(Text(eventId), Number(urlId), TextOrNull(referrer), TextOrNull(userAgent), parse(TextOrNull(userAgent))))
  {}

  /** The durable queue as publishers see it. */
  class ClickQueue {
    var messages: seq<Json>

    constructor ()
      ensures messages == []
    {
      messages := [];
    }
  }

  datatype PublishFault = Delivered | LostBeforeSend | FailsAfterSend

  class RabbitMQPublisher {
    const queue: ClickQueue

    constructor (queue: ClickQueue)
      ensures this.queue == queue
    {
      this.queue := queue;
    }

    /** `publish`: broker errors are logged and swallowed; the event may be lost, never duplicated. */
    method Publish(body: Json, fault: PublishFault)
      modifies queue
      ensures queue.messages == if fault == LostBeforeSend then old(queue.messages) else old(queue.messages) + [body]
    {
      if fault == LostBeforeSend {
        return;
      }
      queue.messages := queue.messages + [body];
    }
  }
}
