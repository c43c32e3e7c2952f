/** The shapes of the game API's data as the bot sees them: log entries,
    outbound requests, and decoded top-level response objects. */
module Api {
  import opened Wrappers

  /** A chat user's identifier, as the decimal string the bot keys its store by. */
  type UserId = string

  /** The id under which an entry appears in the response's "log" object. */
  type LogId = string

  /** One event of the player's activity log. */
  datatype Entry = Entry(timestamp: int, title: string, category: string)

  /** The "log" section of a response, keyed by log id. */
  type Log = map<LogId, Entry>

  /** The "networth" section of a response: its numeric fields by name. */
  type Networth = map<string, int>

  /** One outbound GET: the endpoint path (with its selections) and the key it authenticates with. */
  datatype Request = Request(endpoint: string, key: string)

  const LogEndpoint: string := "user?selections=log"
  const NetworthEndpoint: string := "user?selections=networth"

  /** A decoded top-level JSON object: the sections the bot reads, and the
      names of every other top-level field (for instance "error"). */
  datatype RawResponse = RawResponse(
    name: Option<string>,
    log: Option<Log>,
    networth: Option<Networth>,
    otherKeys: set<string>)
  {
    /** The section names are never counted among the other keys. */
    predicate WellFormed() {
      "name" !in otherKeys && "log" !in otherKeys && "networth" !in otherKeys
    }

    /** Every top-level key of the object. */
    function Keys(): set<string> {
      otherKeys
        + (if name.Some? then {"name"} else {})
        + (if log.Some? then {"log"} else {})
        + (if networth.Some? then {"networth"} else {})
    }

    /** Python treats an empty dict as false. */
    predicate IsEmpty() {
      Keys() == {}
    }

    /** The API reports a logical failure with an "error" field, even on HTTP 200. */
    predicate HasError() {
      "error" in Keys()
    }
  }

  type Response = r: RawResponse | r.WellFormed() witness RawResponse(None, None, None, {})

  /** A fetch result the bot accepts: the request succeeded, and the body is
      neither empty nor an error object. `None` stands for a non-200 status. */
  predicate Usable(fetched: Option<Response>) {
    fetched.Some? && !fetched.value.IsEmpty() && !fetched.value.HasError()
  }

  /** The log section, or the empty log when the response has no "log" key. */
  function LogSection(r: Response): Log {
    r.log.GetOr(map[])
  }
}
