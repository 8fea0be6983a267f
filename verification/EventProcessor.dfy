/** `app/workers/event_processor.py`: one message body, classified and written. */
module EventProcessing {
  import opened Common
  import opened ClickEvents

  /** A parsed user agent for any value of the optional field. */
  type UserAgentParser = Json -> ParsedUserAgent

  /**
   * What `json.loads` makes of a body. `NotJson` stands for the two caught errors; the parser can also
   * raise others, such as RecursionError on deep nesting or a plain ValueError on a huge integer.
   */
  datatype Body = Parsed(payload: Json) | NotJson | ParserRaises

  /** What the checks before the database write make of a body. */
  datatype Checked = Malformed | Escapes | Event(columns: Columns)

  /** How `process` ends: normally, or with one of its two exceptions, or with another one. */
  datatype ProcessOutcome = Processed | MalformedMessage | ProcessingFailed | OtherException

  predicate OccursIn(part: string, whole: string) {
    exists i :: 0 <= i <= |whole| && part <= whole[i..]
  }

  /** Python's `field in payload`; None is the TypeError of a value without membership. */
  function Contains(payload: Json, field: string): Option<bool> {
    match payload
    case Object(fields) => Some(field in fields)
    case List(items) => Some(Text(field) in items)
    case Text(text) => Some(OccursIn(field, text))
    case _ => None
  }

  /** `payload.get(field)` on an object. */
  function Field(fields: map<string, Json>, field: string): Json {
    if field in fields then fields[field] else Null
  }

  function ColumnsOf(parse: UserAgentParser, fields: map<string, Json>): Columns {
    Columns(Field(fields, "event_id"), Field(fields, "url_id"), Field(fields, "referrer"),
            Field(fields, "user_agent"), parse(Field(fields, "user_agent")))
  }

  /** Parsing and field checks; a parsed value without membership, or without `get`, makes another exception escape. */
  function Check(parse: UserAgentParser, body: Body): Checked {
    match body
    case NotJson => Malformed
    case ParserRaises => Escapes
    case Parsed(payload) =>
      match (Contains(payload, "event_id"), Contains(payload, "url_id"))
      case (Some(a), Some(b)) =>
        if !a || !b then Malformed
        else if payload.Object? then Event(ColumnsOf(parse, payload.fields))
        else Escapes
      case _ => Escapes
  }

  /** For every body: exactly when it is malformed, when another exception escapes, and when it is an event. */
  lemma CheckClassifies(parse: UserAgentParser, body: Body)
    ensures Check(parse, body) == Malformed
       <==> (match body
             case NotJson => true
             case Parsed(Object(fields)) => "event_id" !in fields || "url_id" !in fields
             case Parsed(List(items)) => Text("event_id") !in items || Text("url_id") !in items
             case Parsed(Text(text)) => !OccursIn("event_id", text) || !OccursIn("url_id", text)
             case _ => false)
    ensures Check(parse, body) == Escapes
       <==> (match body
             case NotJson => false
             case Parsed(Object(fields)) => false
             case Parsed(List(items)) => Text("event_id") in items && Text("url_id") in items
             case Parsed(Text(text)) => OccursIn("event_id", text) && OccursIn("url_id", text)
             case _ => true)
    ensures Check(parse, body).Event?
       <==> body.Parsed? && body.payload.Object? && "event_id" in body.payload.fields && "url_id" in body.payload.fields
  {}

  /** What an event binds: both required values, and null for an absent referrer or user agent, parsed as such. */
  lemma EventBinds(parse: UserAgentParser, fields: map<string, Json>)
    requires "event_id" in fields && "url_id" in fields
    ensures var r := if "referrer" in fields then fields["referrer"] else Null;
            var u := if "user_agent" in fields then fields["user_agent"] else Null;
            Check(parse, Parsed(Object(fields))) == Event(Columns(fields["event_id"], fields["url_id"], r, u, parse(u)))
  {}

  /** Membership in a string is occurrence of a substring. */
  lemma OccursInIff(part: string, whole: string)
    ensures OccursIn(part, whole) <==> exists before, after :: whole == before + part + after
  {
    if i :| 0 <= i <= |whole| && part <= whole[i..] {
      assert whole == whole[..i] + part + whole[i..][|part|..];
    }
    if before, after :| whole == before + part + after {
      assert whole[|before|..] == part + after;
      assert part <= whole[|before|..];
    }
  }

  class ClickEventProcessor {
    const repository: PostgresClickEventRepository
    const parse: UserAgentParser

    constructor (repository: PostgresClickEventRepository, parse: UserAgentParser)
      ensures this.repository == repository && this.parse == parse
    {
      this.repository, this.parse := repository, parse;
    }

    /** `process`: every database exception becomes retryable; a duplicate is a success. */
    method Process(body: Body, fault: DbFault) returns (outcome: ProcessOutcome)
      modifies repository`rows
      ensures match Check(parse, body)
              case Malformed => outcome == MalformedMessage && repository.rows == old(repository.rows)
              case Escapes => outcome == OtherException && repository.rows == old(repository.rows)
              case Event(columns) =>
                && outcome == (if fault != NoFault || Rejects(repository.coerce, repository.urlIds, old(repository.rows), columns)
                               then ProcessingFailed else Processed)
                && repository.rows == AfterAttempt(repository.coerce, repository.urlIds, old(repository.rows), columns, fault)
    {
      if body.NotJson? {
        return MalformedMessage;
      } else if body.ParserRaises? {
        return OtherException;
      }
      var payload := body.payload;
      var hasEvent, hasUrl := Contains(payload, "event_id"), Contains(payload, "url_id");
      if hasEvent.None? || hasUrl.None? {
        return OtherException;
      }
      if !hasEvent.value || !hasUrl.value {
        return MalformedMessage;
      }
      if !payload.Object? {
        return OtherException;
      }
      var fields := payload.fields;
      var parsed := parse(Field(fields, "user_agent"));
      var columns := Columns(fields["event_id"], fields["url_id"], Field(fields, "referrer"), Field(fields, "user_agent"), parsed);
      var inserted := repository.InsertIdempotent(columns, fault);
      return if inserted.None? then ProcessingFailed else Processed;
    }
  }
}
