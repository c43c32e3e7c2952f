/** The `/bank` command: the requests it issues, the failure replies, and the
    lines of the report it sends. */
module Report {
  import opened Wrappers
  import opened Api
  import opened Text
  import opened Ordering
  import opened Selection
  import opened Credentials

  /** One line of the report message. The date and currency formatting of the
      rendered text is not modelled; each line keeps the values it shows. */
  datatype Line =
    | Header(player: string)
    | Blank
    | EntryLine(timestamp: int, title: string, category: string)
    | NoTransactions
    | NetworthLine(total: int)

  /** The fixed text of the `NoTransactions` line. */
  const NoTransactionsText: string := "No relevant money transactions found in the past 2 months."

  datatype BankReply = MustRegister | FetchFailed | Report(lines: seq<Line>)

  /** One bullet per listed row, in the listed order. */
  function EntryLines(rows: seq<Row>): (r: seq<Line>)
    ensures |r| == |rows|
    ensures forall i :: 0 <= i < |rows| ==>
              r[i] == EntryLine(rows[i].entry.timestamp, rows[i].entry.title, rows[i].entry.category)
  {
    if rows == [] then []
    else [EntryLine(rows[0].entry.timestamp, rows[0].entry.title, rows[0].entry.category)] + EntryLines(rows[1..])
  }

  /** `networth_data["networth"].get("total", 0)`. */
  function NetworthTotal(n: Networth): int {
    if "total" in n then n["total"] else 0
  }

  /** The optional last line: present exactly when the networth fetch returned a "networth" section.
      An "error" field in that response is not looked at. */
  function NetworthLines(fetched: Option<Response>): (r: seq<Line>)
    ensures |r| <= 1
    ensures r != [] <==> fetched.Some? && "networth" in fetched.value.Keys()
    ensures r != [] ==> r[0] == NetworthLine(NetworthTotal(fetched.value.networth.value))
  {
    if fetched.Some? && fetched.value.networth.Some? then
      [NetworthLine(NetworthTotal(fetched.value.networth.value))]
    else
      []
  }

  /** The report for `player`: a header, a blank line, the listed rows or the
      fixed no-transactions line, then the networth line when there is one. */
  function ReportLines(player: string, listed: seq<Row>, networth: Option<Response>): (r: seq<Line>)
    ensures |r| == 2 + (if listed == [] then 1 else |listed|) + |NetworthLines(networth)|
    ensures r[0] == Header(player) && r[1] == Blank
    ensures NoTransactions in r <==> listed == []
    ensures listed == [] ==> r[2] == NoTransactions
    ensures forall i :: 0 <= i < |listed| ==>
              r[2 + i] == EntryLine(listed[i].entry.timestamp, listed[i].entry.title, listed[i].entry.category)
    ensures NetworthLines(networth) != [] ==> r[|r| - 1] == NetworthLines(networth)[0]
  {
    var body := if listed == [] then [NoTransactions] else EntryLines(listed);
    var r := [Header(player), Blank] + body + NetworthLines(networth);
    assert listed != [] ==> NoTransactions !in body by {
      if listed != [] {
        forall i | 0 <= i < |body| ensures body[i] != NoTransactions {
          assert body[i].EntryLine?;
        }
      }
    }
    assert NoTransactions !in NetworthLines(networth);
    r
  }

  /** The two fetches `/bank` makes, in order, for a registered user; none otherwise. */
  function ReportRequests(store: Store, user: UserId): (r: seq<Request>)
    ensures user !in store <==> r == []
    ensures user in store ==> |r| == 2 && r[0].endpoint == LogEndpoint && r[1].endpoint == NetworthEndpoint
    ensures forall q :: q in r ==> user in store && q.key == store[user].key
  {
    if user !in store then []
    else [Request(LogEndpoint, store[user].key), Request(NetworthEndpoint, store[user].key)]
  }

  /** `/bank`: `fetch` answers each request the command issues and `now` is the
      clock in microseconds. `issued` lists the requests made; `listed` the rows
      shown when a report is sent. An unregistered user gets the register-first
      reply and no request is made; an unusable log response gets the failure
      reply (both fetches have already been made); otherwise the report lists a
      correct selection from the log section. */
  method Bank(store: Store, user: UserId, fetch: Request -> Option<Response>, now: int)
    returns (issued: seq<Request>, reply: BankReply, listed: seq<Row>)
    ensures issued == ReportRequests(store, user)
    ensures user !in store ==> reply == MustRegister
    ensures user in store && !Usable(fetch(Request(LogEndpoint, store[user].key))) ==> reply == FetchFailed
    ensures user in store && Usable(fetch(Request(LogEndpoint, store[user].key))) ==>
              && IsSelection(LogSection(fetch(Request(LogEndpoint, store[user].key)).value), now, listed)
              && reply == Report(ReportLines(store[user].player, listed, fetch(Request(NetworthEndpoint, store[user].key))))
  {
    listed := [];
    if user !in store {
      issued := [];
      reply := MustRegister;
      return;
    }
    var record := store[user];
    var logRequest := Request(LogEndpoint, record.key);
    var networthRequest := Request(NetworthEndpoint, record.key);
    issued := [logRequest, networthRequest];
    var logs := fetch(logRequest);
    var networth := fetch(networthRequest);
    if !Usable(logs) {
      reply := FetchFailed;
      return;
    }
    listed := SelectRows(LogSection(logs.value), now);
    reply := Report(ReportLines(record.player, listed, networth));
  }

  /** The no-transactions line appears in a report exactly when no log entry is relevant. */
  lemma NoTransactionsIffNothingRelevant(log: Log, now: int, listed: seq<Row>, player: string, networth: Option<Response>)
    requires IsSelection(log, now, listed)
    ensures NoTransactions in ReportLines(player, listed, networth) <==> RelevantIds(log, now) == {}
  {
  }

  /** A log response without a "log" key yields the no-transactions report rather than an error. */
  lemma MissingLogSection(r: Response, now: int, listed: seq<Row>, player: string, networth: Option<Response>)
    requires r.log.None?
    requires IsSelection(LogSection(r), now, listed)
    ensures ReportLines(player, listed, networth)[2] == NoTransactions
  {
  }

  /** After a successful `/key`, `/bank` fetches with the newly stored key. */
  lemma ReportUsesRegisteredKey(store: Store, user: UserId, apiKey: string, verification: Option<Response>)
    requires Usable(verification)
    ensures ReportRequests(RegisterKey(store, user, apiKey, verification).store, user)
         == [Request(LogEndpoint, apiKey), Request(NetworthEndpoint, apiKey)]
  {
  }

  /** After `/deletekey`, `/bank` makes no request. */
  lemma NoRequestsAfterDelete(store: Store, user: UserId)
    ensures ReportRequests(DeleteKey(store, user).store, user) == []
  {
  }

  /** "Received payment" one day ago is listed. */
  lemma RecentPaymentIsRelevant(nowSeconds: int)
    ensures Relevant(Entry(nowSeconds - SecondsPerDay, "Received payment", "Money"), nowSeconds * MicrosPerSecond)
  {
    WholeSecondCutoff(nowSeconds - SecondsPerDay, nowSeconds);
    assert LowerChar('R') == 'r';
    assert OccursAt(Keywords[4], "received payment", 0);
  }

  /** "Joined faction" one day ago is not listed: it names no money keyword. */
  lemma FactionEventIsIrrelevant(nowSeconds: int)
    ensures !Relevant(Entry(nowSeconds - SecondsPerDay, "Joined faction", "Faction"), nowSeconds * MicrosPerSecond)
  {
    assert LowerChar('J') == 'j';
    var lowered := "joined faction";
    assert Lower("Joined faction") == lowered;
    forall k | 0 <= k < |Keywords| ensures !Occurs(Keywords[k], lowered) {
      NoOccurrence(Keywords[k], lowered);
    }
  }

  /** "Paid bounty" ninety days ago is not listed: it is outside the window. */
  lemma OldPaymentIsIrrelevant(nowSeconds: int)
    ensures !Relevant(Entry(nowSeconds - 90 * SecondsPerDay, "Paid bounty", "Money"), nowSeconds * MicrosPerSecond)
  {
  }
}
