/**
  * Close frame payloads (sections 5.5.1 and 7.4 of RFC 6455): which codes may appear on the
  * wire, and extracting the code and the reason from a received payload.
  */
module CloseFrame {
  import opened Utf8

  type Code = c: int | 0 <= c < 0x1_0000

  datatype Error =
    | NoError | BadCloseCode | InvalidCloseCode | ReservedCloseCode | InvalidUtf8 | ReasonRequiresCode | ControlTooBig

  const PROTOCOL_ERROR: Code := 1002
  const NO_STATUS: Code := 1005
  const ABNORMAL_CLOSE: Code := 1006
  const TLS_HANDSHAKE: Code := 1015

  predicate Reserved(code: Code) {
    1016 <= code <= 2999 || code == 1004 || code == 1014
  }

  predicate Invalid(code: Code) {
    code <= 999 || code >= 5000 || code == NO_STATUS || code == ABNORMAL_CLOSE || code == TLS_HANDSHAKE
  }

  /** The code from the first two bytes, most significant first, with the error that goes with it. */
  function ExtractCode(payload: seq<Octet>): (Code, Error) {
    if |payload| == 0 then (NO_STATUS, NoError)
    else if |payload| == 1 then (PROTOCOL_ERROR, BadCloseCode)
    else
      var code: Code := BigEndian(payload[0], payload[1]);
      (code,
       if Reserved(code) then ReservedCloseCode
       else if Invalid(code) then InvalidCloseCode
       else NoError)
  }

  function BigEndian(high: Octet, low: Octet): (code: Code) {
    var h: int, l: int := high, low;
    256 * h + l
  }

  /** The bytes after the code, with an error when they are not UTF-8. */
  function ExtractReason(payload: seq<Octet>): (seq<Octet>, Error) {
    var reason := if |payload| > 2 then payload[2..] else [];
    (reason, if Valid(reason) then NoError else InvalidUtf8)
  }

  /** The codes that an endpoint may send in a close frame. */
  predicate OnWire(code: Code) {
    1000 <= code <= 1003 || 1007 <= code <= 1013 || 3000 <= code <= 4999
  }

  function Compose(code: Code, reason: seq<Octet>): seq<Octet> {
    [code / 256, code % 256] + reason
  }

  /** A payload passes both extractors exactly when it is empty, or a sendable code followed by well-formed UTF-8. */
  lemma AcceptedPayloads(payload: seq<Octet>)
    ensures ExtractCode(payload).1 == NoError && ExtractReason(payload).1 == NoError
            <==> payload == [] || exists code, reason :: OnWire(code) && WellFormed(reason) && payload == Compose(code, reason)
  {
    hide WellFormed, Valid;
    ValidIsWellFormed([]);
    if |payload| >= 2 {
      var code, reason := BigEndian(payload[0], payload[1]), payload[2..];
      ComposedBack(payload);
      ValidIsWellFormed(reason);
      assert |payload| == 2 ==> reason == [];
      forall c, r | payload == Compose(c, r) ensures c == code && r == reason {
        CodeSplits(c);
      }
    }
    assert ExtractReason([]).1 == NoError by { EmptyIsValid(); }
  }

  lemma EmptyIsValid()
    ensures Valid([])
  {
  }

  lemma CodeSplits(code: Code)
    ensures BigEndian(code / 256, code % 256) == code
  {
  }

  /** Taking a payload apart and putting it together again. */
  lemma ComposedBack(payload: seq<Octet>)
    requires |payload| >= 2
    ensures Compose(BigEndian(payload[0], payload[1]), payload[2..]) == payload
  {
  }

  /** What was composed is extracted: the reason always, the code with the error its range calls for. */
  lemma ExtractComposed(code: Code, reason: seq<Octet>)
    ensures ExtractCode(Compose(code, reason)).0 == code && ExtractReason(Compose(code, reason)).0 == reason
    ensures ExtractCode(Compose(code, reason)).1 == NoError <==> OnWire(code)
    ensures ExtractReason(Compose(code, reason)).1 == NoError <==> WellFormed(reason)
  {
    hide WellFormed, Valid;
    CodeSplits(code);
    var payload := Compose(code, reason);
    assert payload[2..] == reason;
    ValidIsWellFormed(reason);
  }

  /** The payload of a close frame to be sent, or the error that prevents it. */
  function PrepareClose(code: Code, reason: seq<Octet>): (seq<Octet>, Error) {
    if Reserved(code) then ([], ReservedCloseCode)
    else if Invalid(code) && code != NO_STATUS then ([], InvalidCloseCode)
    else if code == NO_STATUS && |reason| > 0 then ([], ReasonRequiresCode)
    else if |reason| > 123 then ([], ControlTooBig)
    else (if code != NO_STATUS then Compose(code, reason) else [], NoError)
  }

  /**
    * A close that can be sent is one with a code for the wire or with neither code nor reason, and at
    * most 123 bytes of reason. The receiver extracts the same code and reason; it accepts them exactly
    * when the reason is UTF-8, which the sender does not check.
    */
  lemma PreparedIsExtracted(code: Code, reason: seq<Octet>)
    ensures var (payload, error) := PrepareClose(code, reason);
            && (error == NoError <==> (OnWire(code) || (code == NO_STATUS && reason == [])) && |reason| <= 123)
            && (error == NoError ==> |payload| <= 125 && ExtractCode(payload) == (code, NoError)
                                     && ExtractReason(payload).0 == reason
                                     && (ExtractReason(payload).1 == NoError <==> WellFormed(reason)))
  {
    hide WellFormed, Valid;
    ExtractComposed(code, reason);
    ValidIsWellFormed([]);
  }

  /** A reason that is sent without an error and refused by the receiver. */
  lemma UncheckedReason()
    ensures var (payload, error) := PrepareClose(1000, [0xFF]);
            error == NoError && ExtractCode(payload) == (1000, NoError) && ExtractReason(payload) == ([0xFF], InvalidUtf8)
  {
    PreparedIsExtracted(1000, [0xFF]);
    hide PrepareClose, ExtractCode, WellFormed;
    ValidIsWellFormed([0xFF]);
    NotAStart();
  }

  lemma NotAStart()
    ensures !Valid([0xFF])
  {
  }

  /** What is extracted, in numbers: the code, which error goes with it, and the reason. */
  lemma ExtractedInNumbers(payload: seq<Octet>)
    ensures |payload| == 0 ==> ExtractCode(payload) == (1005, NoError) && ExtractReason(payload) == ([], NoError)
    ensures |payload| == 1 ==> ExtractCode(payload) == (1002, BadCloseCode) && ExtractReason(payload) == ([], NoError)
    ensures |payload| >= 2 ==>
              var h: int, l: int := payload[0], payload[1];
              var n := 256 * h + l;
              && ExtractCode(payload).0 == n && ExtractReason(payload).0 == payload[2..]
              && ExtractCode(payload).1 == (if n == 1004 || n == 1014 || 1016 <= n <= 2999 then ReservedCloseCode
                                            else if n < 1000 || n == 1005 || n == 1006 || n == 1015 || n >= 5000 then InvalidCloseCode
                                            else NoError)
  {
    EmptyIsValid();
    hide Valid;
    assert |payload| == 2 ==> payload[2..] == [];
  }

  /** What is sent for a code and a reason, in numbers, and which error prevents it. */
  lemma PreparedInNumbers(code: Code, reason: seq<Octet>)
    ensures PrepareClose(code, reason)
            == if code == 1004 || code == 1014 || 1016 <= code <= 2999 then ([], ReservedCloseCode)
               else if code < 1000 || code == 1006 || code == 1015 || code >= 5000 then ([], InvalidCloseCode)
               else if code == 1005 then ([], if reason == [] then NoError else ReasonRequiresCode)
               else if |reason| > 123 then ([], ControlTooBig)
               else ([code / 256, code % 256] + reason, NoError)
  {
  }
}
