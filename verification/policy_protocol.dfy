/** The per-connection side of the Flash policy server (the task submitted for
    each accepted socket in `startFlashPolicyServer`): read the request one
    character at a time, decide whether to answer, write the cross-domain
    policy document, and close the socket on every path. */
module PolicyProtocol {
  import opened Wrappers
  import opened JavaText

  /** The request a Flash client sends before it opens a socket. */
  const PolicyFileRequest: string := "<policy-file-request/>"

  /** The read loop appends while the buffer is no longer than the request
      literal, so the buffer can grow to one more than the literal's length. */
  const MaxRequestLength: nat := |PolicyFileRequest| + 1

  const DocumentHead: string := "<cross-domain-policy>" + "<allow-access-from domain=\""
  const DocumentMiddle: string := "\" to-ports=\""
  const DocumentTail: string := "\" /></cross-domain-policy>"

  /** The request buffer the loop built, and how many reads it made. */
  datatype RequestRead = RequestRead(buffer: seq<JChar>, consumed: nat)

  /** The `k`-th read from the connection. Past the end of `input` the stream has
      ended, and a reader at end of stream keeps returning -1. */
  function ReadAt(input: seq<ReadValue>, k: nat): (c: ReadValue)
    ensures k >= |input| ==> c == -1
  {
    if k < |input| then input[k] else -1
  }

  /** `buffer` holds, in order, the characters of the first input, none of
      which was a 0. */
  predicate DecodedPrefix(input: seq<ReadValue>, buffer: seq<JChar>)
  {
    forall i :: 0 <= i < |buffer| ==> ReadAt(input, i) != 0 && buffer[i] == ToJChar(ReadAt(input, i))
  }

  /** One turn of `while ((c = in.read()) != 0 && request.length() <= 22) request.append((char) c)`:
      the read happens first, so a full buffer still costs one more read. */
  function ReadFrom(input: seq<ReadValue>, buffer: seq<JChar>): (r: RequestRead)
    requires |buffer| <= MaxRequestLength
    requires DecodedPrefix(input, buffer)
    ensures |buffer| <= |r.buffer| <= MaxRequestLength
    ensures r.buffer[..|buffer|] == buffer
    ensures r.consumed == |r.buffer| + 1
    ensures DecodedPrefix(input, r.buffer)
    ensures |r.buffer| < MaxRequestLength ==> ReadAt(input, |r.buffer|) == 0
    decreases MaxRequestLength - |buffer|
  {
    var c := ReadAt(input, |buffer|);
    if c == 0 || |buffer| > |PolicyFileRequest| then RequestRead(buffer, |buffer| + 1)
    else ReadFrom(input, buffer + [ToJChar(c)])
  }

  /** The whole request loop. The buffer is the characters read before the
      first 0, cut at 23; the 0 itself is not kept, while an end of stream (-1)
      is kept as U+FFFF and does not stop the loop. At most 24 reads are made. */
  function ReadRequest(input: seq<ReadValue>): (r: RequestRead)
    ensures |r.buffer| <= MaxRequestLength && r.consumed == |r.buffer| + 1
    ensures r.consumed <= |PolicyFileRequest| + 2
    ensures DecodedPrefix(input, r.buffer)
    ensures |r.buffer| < MaxRequestLength ==> ReadAt(input, |r.buffer|) == 0
  {
    ReadFrom(input, [])
  }

  /** The reply decision: the request is the policy request in any case, or both
      the domain and the ports are configured. */
  predicate ShouldReply(buffer: seq<JChar>, domain: Option<string>, ports: Option<string>)
  {
    EqualsIgnoreCase(buffer, PolicyFileRequest) || (domain.Some? && ports.Some?)
  }

  /** The server answers exactly when the request is, code unit by code unit, a
      case variant of the policy request, or when domain and ports are both set. */
  lemma ReplyDecision(buffer: seq<JChar>, domain: Option<string>, ports: Option<string>)
    ensures IsAscii(PolicyFileRequest)
    ensures ShouldReply(buffer, domain, ports) <==>
      || (|buffer| == |PolicyFileRequest|
          && forall i :: 0 <= i < |buffer| ==> buffer[i] in AsciiCaseVariants(PolicyFileRequest[i]))
      || (domain.Some? && ports.Some?)
  {
    EqualsIgnoreCaseIff(buffer, PolicyFileRequest);
  }

  /** The text `println` and `write(0)` put on the wire for a domain and ports
      already turned into strings. */
  function PolicyText(domain: string, ports: string, lineSeparator: string): string
  {
    DocumentHead + domain + DocumentMiddle + ports + DocumentTail + lineSeparator + "\0"
  }

  /** The reply for the configured domain and ports; a null one prints as
      "null", as Java string concatenation does. */
  function PolicyDocument(domain: Option<string>, ports: Option<string>, lineSeparator: string): string
  {
    PolicyText(JavaString(domain), JavaString(ports), lineSeparator)
  }

  /** Reads a policy document back into its domain and ports: the inverse of
      `PolicyText` for values without a double quote. */
  function ParsePolicyText(doc: string, lineSeparator: string): (r: Option<(string, string)>)
  {
    var trailer := DocumentTail + lineSeparator + "\0";
    if |doc| < |DocumentHead| + |trailer| then None
    else if doc[..|DocumentHead|] != DocumentHead || doc[|doc| - |trailer|..] != trailer then None
    else ParseValues(doc[|DocumentHead|..|doc| - |trailer|])
  }

  /** The domain up to the first double quote, then the fixed middle, then the ports. */
  function ParseValues(body: string): (r: Option<(string, string)>)
  {
    var q := IndexOf(body, '"');
    if q + |DocumentMiddle| > |body| || body[q..q + |DocumentMiddle|] != DocumentMiddle then None
    else
      var ports := body[q + |DocumentMiddle|..];
      if '"' in ports then None else Some((body[..q], ports))
  }

  /** What may go wrong on one connection: setting blocking mode or opening the
      input stream, the read with the given index, or opening the output stream.
      A failing `close` is caught and ignored, so it has no part here; a
      `PrintWriter` never throws on write or flush. */
  datatype ConnectionFaults = ConnectionFaults(setupFails: bool, readFailsAt: Option<nat>, outputFails: bool)

  const NoFaults: ConnectionFaults := ConnectionFaults(false, None, false)

  /** What the client receives, and how many times the socket was closed. */
  datatype Served = Served(reply: Option<string>, closeAttempts: nat)

  /** One connection task. On the normal path the socket is closed inside the
      `try` and again in `finally`; when an `IOException` interrupts the task it
      is logged and only the `finally` close runs. Nothing escapes the task. */
  function ServeConnection(domain: Option<string>, ports: Option<string>, lineSeparator: string,
                           input: seq<ReadValue>, faults: ConnectionFaults): (r: Served)
    ensures 1 <= r.closeAttempts <= 2
    ensures r.reply.Some? ==> r.reply.value == PolicyDocument(domain, ports, lineSeparator)
    ensures r.reply.Some? ==> ShouldReply(ReadRequest(input).buffer, domain, ports)
    ensures faults.setupFails || faults.outputFails ==> r.reply.None?
    ensures faults == NoFaults ==>
      r.closeAttempts == 2 && (r.reply.Some? <==> ShouldReply(ReadRequest(input).buffer, domain, ports))
    ensures faults.readFailsAt.Some? && faults.readFailsAt.value < ReadRequest(input).consumed ==>
      r.reply.None? && r.closeAttempts == 1
    ensures r.closeAttempts == 1 <==>
      || faults.setupFails
      || (faults.readFailsAt.Some? && faults.readFailsAt.value < ReadRequest(input).consumed)
      || (faults.outputFails && ShouldReply(ReadRequest(input).buffer, domain, ports))
    ensures r.reply.Some? <==>
      && !faults.setupFails
      && !(faults.readFailsAt.Some? && faults.readFailsAt.value < ReadRequest(input).consumed)
      && !faults.outputFails
      && ShouldReply(ReadRequest(input).buffer, domain, ports)
  {
    if faults.setupFails then Served(None, 1)
    else
      var request := ReadRequest(input);
      if faults.readFailsAt.Some? && faults.readFailsAt.value < request.consumed then Served(None, 1)
      else if !ShouldReply(request.buffer, domain, ports) then Served(None, 2)
      else if faults.outputFails then Served(None, 1)
      else Served(Some(PolicyDocument(domain, ports, lineSeparator)), 2)
  }

  /** The request loop stops at the first 0 when it comes within the first 23
      reads: the buffer is everything before it, and the 0 was the last read. */
  lemma StopsAtFirstNul(input: seq<ReadValue>, z: nat)
    requires z < MaxRequestLength && ReadAt(input, z) == 0
    requires forall i :: 0 <= i < z ==> ReadAt(input, i) != 0
    ensures ReadRequest(input).consumed == z + 1
    ensures ReadRequest(input).buffer == seq(z, i requires 0 <= i < z => ToJChar(ReadAt(input, i)))
  {
    var r := ReadRequest(input);
    assert |r.buffer| <= z;
  }

  /** A client that closes the connection at once is read 24 times: the loop
      never sees a 0, and fills the buffer with 23 copies of U+FFFF. */
  lemma EndOfStreamDoesNotStop()
    ensures ReadRequest([]) == RequestRead(seq(MaxRequestLength, i => 0xFFFF), MaxRequestLength + 1)
  {
    var r := ReadRequest([]);
    assert |r.buffer| == MaxRequestLength;
    assert forall i :: 0 <= i < |r.buffer| ==> r.buffer[i] == 0xFFFF by {
      forall i | 0 <= i < |r.buffer|
        ensures r.buffer[i] == 0xFFFF
      {
        assert ReadAt([], i) == -1;
      }
    }
  }

  lemma PolicyRequestIsAscii()
    ensures IsAscii(PolicyFileRequest) && |PolicyFileRequest| == 22
    ensures forall i :: 0 <= i < |PolicyFileRequest| ==> PolicyFileRequest[i] != '\0'
  {
  }

  /** The policy request, in any mix of cases, followed by a 0 is read as exactly
      itself and is answered whatever the configuration. */
  lemma PolicyRequestAnswered(request: seq<JChar>, rest: seq<ReadValue>, domain: Option<string>, ports: Option<string>, lineSeparator: string)
    requires IsAscii(PolicyFileRequest)
    requires EqualsIgnoreCase(request, PolicyFileRequest)
    ensures ReadRequest(request + [0] + rest) == RequestRead(request, |PolicyFileRequest| + 1)
    ensures ServeConnection(domain, ports, lineSeparator, request + [0] + rest, NoFaults).reply
      == Some(PolicyDocument(domain, ports, lineSeparator))
  {
    var input: seq<ReadValue> := request + [0] + rest;
    assert forall i :: 0 <= i < |request| ==> request[i] != 0 by {
      forall i | 0 <= i < |request|
        ensures request[i] != 0
      {
        assert FoldCase(request[i]) == FoldCase(PolicyFileRequest[i] as int);
        assert PolicyFileRequest[i] != '\0';
      }
    }
    assert forall i :: 0 <= i < |request| ==> ReadAt(input, i) == request[i];
    StopsAtFirstNul(input, |request|);
    assert ReadRequest(input).buffer == request;
  }

  lemma ValuesRoundTrip(domain: string, ports: string)
    requires '"' !in domain && '"' !in ports
    ensures ParseValues(domain + DocumentMiddle + ports) == Some((domain, ports))
  {
    var body := domain + DocumentMiddle + ports;
    assert DocumentMiddle == ['"'] + DocumentMiddle[1..];
    assert body == domain + ['"'] + (DocumentMiddle[1..] + ports);
    IndexOfAfter(domain, '"', DocumentMiddle[1..] + ports);
    Slices3(domain, DocumentMiddle, ports);
  }

  lemma ValuesParsed(body: string, domain: string, ports: string)
    requires ParseValues(body) == Some((domain, ports))
    ensures '"' !in domain && '"' !in ports
    ensures body == domain + DocumentMiddle + ports
  {
    var q := IndexOf(body, '"');
    NoneBeforeIndexOf(body, '"');
    Recompose(body, q, q + |DocumentMiddle|);
  }

  /** The document as head, the part carrying the values, and trailer. */
  lemma PolicyTextShape(domain: string, ports: string, lineSeparator: string)
    ensures PolicyText(domain, ports, lineSeparator)
      == DocumentHead + (domain + DocumentMiddle + ports) + (DocumentTail + lineSeparator + "\0")
  {
  }

  /** The policy document puts the domain and the ports in verbatim: values
      without a double quote are read back unchanged. */
  lemma PolicyTextRoundTrip(domain: string, ports: string, lineSeparator: string)
    requires '"' !in domain && '"' !in ports
    ensures ParsePolicyText(PolicyText(domain, ports, lineSeparator), lineSeparator) == Some((domain, ports))
  {
    var trailer := DocumentTail + lineSeparator + "\0";
    var body := domain + DocumentMiddle + ports;
    PolicyTextShape(domain, ports, lineSeparator);
    Slices3(DocumentHead, body, trailer);
    ValuesRoundTrip(domain, ports);
  }

  /** Every document the parser accepts is one `PolicyText` writes, for the
      values it returns, and those values hold no double quote. */
  lemma ParsedTextIsPolicyText(doc: string, lineSeparator: string, domain: string, ports: string)
    requires ParsePolicyText(doc, lineSeparator) == Some((domain, ports))
    ensures '"' !in domain && '"' !in ports
    ensures doc == PolicyText(domain, ports, lineSeparator)
  {
    var trailer := DocumentTail + lineSeparator + "\0";
    var body := doc[|DocumentHead|..|doc| - |trailer|];
    ValuesParsed(body, domain, ports);
    Recompose(doc, |DocumentHead|, |doc| - |trailer|);
    assert doc == DocumentHead + (domain + DocumentMiddle + ports) + trailer;
    PolicyTextShape(domain, ports, lineSeparator);
  }

  /** The document ends in one NUL, and it is the only one when the domain, the
      ports and the line separator hold none. */
  lemma PolicyTextEndsWithOneNul(domain: string, ports: string, lineSeparator: string)
    ensures var doc := PolicyText(domain, ports, lineSeparator); |doc| > 0 && doc[|doc| - 1] == '\0'
    ensures '\0' !in domain && '\0' !in ports && '\0' !in lineSeparator ==>
      var doc := PolicyText(domain, ports, lineSeparator); '\0' !in doc[..|doc| - 1]
  {
    var doc := PolicyText(domain, ports, lineSeparator);
    assert doc[..|doc| - 1] == DocumentHead + domain + DocumentMiddle + ports + DocumentTail + lineSeparator;
    assert '\0' !in "<cross-domain-policy>" && '\0' !in "<allow-access-from domain=\"";
    assert '\0' !in DocumentMiddle && '\0' !in DocumentTail;
  }
}
