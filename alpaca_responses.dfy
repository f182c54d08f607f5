/**
 * The Alpaca response envelope: every standard response carries the
 * process-wide client transaction id (read only) and a fresh server
 * transaction id from a 32-bit counter that wraps around; error responses
 * carry an error number and message, are still HTTP 200, and are logged at
 * error level.
 */
module AlpacaResponses {
  import opened Wrappers
  import opened Decimal
  import Logging

  const TwoTo32: int := 0x1_0000_0000
  type Uint32 = x: int | 0 <= x < TwoTo32

  const StatusOK: int := 200

  /** The values the endpoints wrap. Floats are carried, never computed on. */
  datatype Value =
    | StringListValue(items: seq<string>)
    | StringValue(s: string)
    | IntValue(i: int)
    | FloatValue(f: real)
    | BoolValue(b: bool)

  /** The JSON envelope; `value` is None for the bare Response struct. */
  datatype Envelope = Envelope(
    clientTransactionID: Uint32,
    serverTransactionID: Uint32,
    errorNumber: int,
    errorMessage: string,
    value: Option<Value>)

  /** What is written back: HTTP status and body. */
  datatype Reply = Reply(status: int, body: Envelope)

  /** atomic.AddUint32(&x, 1): add one modulo 2^32. */
  function NextID(x: Uint32): (y: Uint32)
    ensures x < TwoTo32 - 1 ==> y == x + 1
    ensures x == TwoTo32 - 1 ==> y == 0
  {
    (x + 1) % TwoTo32
  }

  /** The server ids handed out by k consecutive standard responses when
      the counter starts at s. */
  function IssuedIDs(s: Uint32, k: nat): (ids: seq<Uint32>)
    ensures |ids| == k
    ensures forall j :: 0 <= j < k ==> ids[j] == (s + j + 1) % TwoTo32
  {
    seq(k, j requires 0 <= j < k => ((s + j + 1) % TwoTo32) as Uint32)
  }

  lemma IssuedIDsSnoc(s: Uint32, k: nat)
    ensures IssuedIDs(s, k + 1) == IssuedIDs(s, k) + [NextID(((s + k) % TwoTo32) as Uint32)]
  {
    var x := (s + k) % TwoTo32;
    assert (x + 1) % TwoTo32 == (s + k + 1) % TwoTo32;
  }

  /** Up to 2^32 consecutive responses never reuse a server id. */
  lemma IssuedIDsDistinct(s: Uint32, k: nat)
    requires k <= TwoTo32
    ensures forall a, b :: 0 <= a < b < k ==> IssuedIDs(s, k)[a] != IssuedIDs(s, k)[b]
  {
    forall a, b | 0 <= a < b < k ensures IssuedIDs(s, k)[a] != IssuedIDs(s, k)[b]
    {
      var x, y := s + a + 1, s + b + 1;
      if x % TwoTo32 == y % TwoTo32 {
        ModEqualClose(x, y);
      }
    }
  }

  /** Two numbers less than 2^32 apart have different remainders. */
  lemma ModEqualClose(x: nat, y: nat)
    requires x < y < x + TwoTo32
    ensures x % TwoTo32 != y % TwoTo32
  {
    var qx, qy := x / TwoTo32, y / TwoTo32;
    assert x == qx * TwoTo32 + x % TwoTo32;
    assert y == qy * TwoTo32 + y % TwoTo32;
    assert y - x == (qy - qx) * TwoTo32 + (y % TwoTo32 - x % TwoTo32);
  }

  /** Without wrap-around the server ids strictly increase by one. */
  lemma IssuedIDsIncreasing(s: Uint32, k: nat)
    requires s + k < TwoTo32
    ensures forall j :: 0 <= j < k ==> IssuedIDs(s, k)[j] == s + j + 1
    ensures forall a, b :: 0 <= a < b < k ==> IssuedIDs(s, k)[a] < IssuedIDs(s, k)[b]
  {
  }

  /** The management response: the value with both ids and the error number
      zero; it touches no counter. */
  function ManagementValueResponse(value: Value): (r: Reply)
    ensures r.status == StatusOK
    ensures r.body.value == Some(value)
    ensures r.body.clientTransactionID == 0 && r.body.serverTransactionID == 0
    ensures r.body.errorNumber == 0 && r.body.errorMessage == ""
  {
    Reply(StatusOK, Envelope(0, 0, 0, "", Some(value)))
  }

  /** The error log line of a failed Alpaca request, before the level prefix. */
  function ErrorLogMessage(errNum: int, errMsg: string): string
  {
    "Alpaca request failed with error " + IntToString(errNum) + ": " + errMsg
  }

  /** The two process-wide counters. `issued` records every server id handed
      out since `initialServerID`. */
  class TransactionCounters {
    var clientTransactionID: Uint32
    var serverTransactionID: Uint32
    ghost const initialServerID: Uint32
    ghost var issued: seq<Uint32>

    ghost predicate Valid()
      reads this
    {
      issued == IssuedIDs(initialServerID, |issued|)
      && serverTransactionID == (initialServerID + |issued|) % TwoTo32
    }

    constructor (client: Uint32, server: Uint32)
      ensures Valid() && issued == []
      ensures clientTransactionID == client && serverTransactionID == server
      ensures initialServerID == server
    {
      clientTransactionID := client;
      serverTransactionID := server;
      initialServerID := server;
      issued := [];
    }

    /** atomic.AddUint32(&ServerTransactionID, 1), returning the new value. */
    method NextServerTransactionID() returns (id: Uint32)
      requires Valid()
      modifies this
      ensures Valid()
      ensures id == NextID(old(serverTransactionID)) && serverTransactionID == id
      ensures issued == old(issued) + [id]
      ensures clientTransactionID == old(clientTransactionID)
    {
      IssuedIDsSnoc(initialServerID, |issued|);
      serverTransactionID := NextID(serverTransactionID);
      id := serverTransactionID;
      issued := issued + [id];
    }

    /** Shared by every standard response: the client id as last seen, a fresh server id, no error. */
    method StandardResponse(value: Option<Value>) returns (r: Reply)
      requires Valid()
      modifies this
      ensures Valid()
      ensures serverTransactionID == NextID(old(serverTransactionID))
      ensures issued == old(issued) + [serverTransactionID]
      ensures clientTransactionID == old(clientTransactionID)
      ensures r == Reply(StatusOK, Envelope(clientTransactionID, serverTransactionID, 0, "", value))
    {
      var client := clientTransactionID;
      var server := NextServerTransactionID();
      r := Reply(StatusOK, Envelope(client, server, 0, "", value));
    }

    method EmptyResponse() returns (r: Reply)
      requires Valid()
      modifies this
      ensures Valid()
      ensures serverTransactionID == NextID(old(serverTransactionID))
      ensures issued == old(issued) + [serverTransactionID]
      ensures clientTransactionID == old(clientTransactionID)
      ensures r == Reply(StatusOK, Envelope(clientTransactionID, serverTransactionID, 0, "", None))
    {
      r := StandardResponse(None);
    }

    method StringListResponse(value: seq<string>) returns (r: Reply)
      requires Valid()
      modifies this
      ensures Valid()
      ensures serverTransactionID == NextID(old(serverTransactionID))
      ensures issued == old(issued) + [serverTransactionID]
      ensures clientTransactionID == old(clientTransactionID)
      ensures r == Reply(StatusOK, Envelope(clientTransactionID, serverTransactionID, 0, "", Some(StringListValue(value))))
    {
      r := StandardResponse(Some(StringListValue(value)));
    }

    method StringResponse(value: string) returns (r: Reply)
      requires Valid()
      modifies this
      ensures Valid()
      ensures serverTransactionID == NextID(old(serverTransactionID))
      ensures issued == old(issued) + [serverTransactionID]
      ensures clientTransactionID == old(clientTransactionID)
      ensures r == Reply(StatusOK, Envelope(clientTransactionID, serverTransactionID, 0, "", Some(StringValue(value))))
    {
      r := StandardResponse(Some(StringValue(value)));
    }

    method IntResponse(value: int) returns (r: Reply)
      requires Valid()
      modifies this
      ensures Valid()
      ensures serverTransactionID == NextID(old(serverTransactionID))
      ensures issued == old(issued) + [serverTransactionID]
      ensures clientTransactionID == old(clientTransactionID)
      ensures r == Reply(StatusOK, Envelope(clientTransactionID, serverTransactionID, 0, "", Some(IntValue(value))))
    {
      r := StandardResponse(Some(IntValue(value)));
    }

    method FloatResponse(value: real) returns (r: Reply)
      requires Valid()
      modifies this
      ensures Valid()
      ensures serverTransactionID == NextID(old(serverTransactionID))
      ensures issued == old(issued) + [serverTransactionID]
      ensures clientTransactionID == old(clientTransactionID)
      ensures r == Reply(StatusOK, Envelope(clientTransactionID, serverTransactionID, 0, "", Some(FloatValue(value))))
    {
      r := StandardResponse(Some(FloatValue(value)));
    }

    method BoolResponse(value: bool) returns (r: Reply)
      requires Valid()
      modifies this
      ensures Valid()
      ensures serverTransactionID == NextID(old(serverTransactionID))
      ensures issued == old(issued) + [serverTransactionID]
      ensures clientTransactionID == old(clientTransactionID)
      ensures r == Reply(StatusOK, Envelope(clientTransactionID, serverTransactionID, 0, "", Some(BoolValue(value))))
    {
      r := StandardResponse(Some(BoolValue(value)));
    }

    /** An error reply: HTTP 200 whatever the error number, the error number
        and message as given, and one error-level log line. */
    method ErrorResponse(log: Logging.Logger, errNum: int, errMsg: string) returns (r: Reply)
      requires Valid()
      modifies this, log
      ensures Valid()
      ensures serverTransactionID == NextID(old(serverTransactionID))
      ensures issued == old(issued) + [serverTransactionID]
      ensures clientTransactionID == old(clientTransactionID)
      ensures r == Reply(StatusOK, Envelope(clientTransactionID, serverTransactionID, errNum, errMsg, None))
      ensures log.output == old(log.output) + ["[ERROR] " + ErrorLogMessage(errNum, errMsg)]
      ensures log.currentLogLevel == old(log.currentLogLevel)
    {
      var httpStatus := StatusOK;
      var client := clientTransactionID;
      var server := NextServerTransactionID();
      r := Reply(httpStatus, Envelope(client, server, errNum, errMsg, None));
      log.Error(ErrorLogMessage(errNum, errMsg));
    }
  }

  /** A client of the counters: every server id issued since construction is
      distinct from every other as long as fewer than 2^32 were issued. */
  lemma IssuedNeverRepeats(c: TransactionCounters)
    requires c.Valid() && |c.issued| <= TwoTo32
    ensures forall a, b :: 0 <= a < b < |c.issued| ==> c.issued[a] != c.issued[b]
  {
    IssuedIDsDistinct(c.initialServerID, |c.issued|);
  }
}
