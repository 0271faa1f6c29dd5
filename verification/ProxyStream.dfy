/** The response path of the reverse proxy: the backend's header and body go to the
    client as fast as it takes them, with one buffer in between. */
module ProxyStream {
  import opened Bytes
  import opened Sequences
  import opened ProxyHeader
  import opened ProxySocket
  import C = ChunkedScanner
  import G = ChunkedGrammar

  datatype Stage = RecvHeader | Streaming | WaitWrite | InTunnel | Finished | Failed

  /** What the response header is at all, and how it frames the body. Both are
      readings of the header octets and arbitrary here. */
  datatype Kind = Rejected | Upgrade | Plain
  datatype Framing = Unusable | Sized(length: nat) | Chunked | UntilClose

  /** A header: it ends with its first empty line. */
  ghost predicate Header(h: Bytes) {
    EndsWith(h, EMPTY_LINE) && !Occurs(EMPTY_LINE, h[..|h| - 1])
  }

  /** The octets a read brings. */
  function Octets(read: Read): Bytes {
    if read.Got? then read.data else []
  }

  class Response {
    const kind: Bytes -> Kind
    const framing: Bytes -> Framing
    const scanner: C.Scanner
    const client: Socket

    var stage: Stage
    var buffer: array<byte>
    var pos: nat
    var sendPos: nat
    var headerEnd: nat
    var headerSent: bool
    var bodySent: nat
    var upgrade: bool
    var frame: Framing

    ghost const before: Bytes    // what the client's socket had taken before the response
    ghost var raw: Bytes         // all octets received from the backend
    ghost var rawHead: Bytes     // the header among them
    ghost var head: Bytes        // the header on its way to the client
    ghost var body: Bytes        // all body octets received from the backend
    ghost var delivered: Bytes   // all octets the client's socket has taken of the response

    ghost predicate Room()
      reads `sendPos, `pos, `buffer
    {
      sendPos <= pos <= buffer.Length
    }

    /** Taken by the client's socket, and waiting for it: the header and the whole body
        so far. */
    ghost predicate Flow()
      reads `sendPos, `pos, `buffer, `head, `body, `delivered, buffer, client
    {
      && Room() && client.taken == before + delivered
      && delivered + buffer[sendPos..pos] == head + body
    }

    /** The counters say how much of the header and how much of the body is out. */
    ghost predicate Counted()
      reads `sendPos, `pos, `headerEnd, `headerSent, `bodySent, `head, `delivered
    {
      if headerSent then |delivered| == |head| + bodySent
      else bodySent == 0 && |delivered| == sendPos <= headerEnd == |head| <= pos
    }

    /** The scanner has seen every body octet once. */
    ghost predicate Followed()
      reads `frame, `upgrade, `body, scanner
    {
      && C.Sane(scanner.State()) && !frame.Unusable?
      && (frame.Chunked? && !upgrade ==> scanner.State() == C.Run(C.START, body))
    }

    ghost predicate Valid()
      reads this, buffer, scanner, client
    {
      && Flow() && Counted() && Followed() && (headerSent || sendPos < headerEnd)
      && (upgrade && headerSent ==> stage == InTunnel)
    }

    /** Where it all came from: the backend's header, with the closing of the
        connection put in force unless the protocol is upgraded, then its body. */
    ghost predicate Origin()
      reads `raw, `rawHead, `head, `body, `upgrade, `frame
    {
      && raw == rawHead + body && Header(rawHead)
      && if upgrade then kind(rawHead).Upgrade? && head == rawHead
         else kind(rawHead).Plain? && ClosingHeader(rawHead, head) && frame == framing(head)
    }

    /** A client that is not upgraded is told that the connection closes. */
    lemma ClosingTold()
      requires Origin() && !upgrade
      ensures CloseInForce(head)
    {
      ClosingHeaderCloses(rawHead, head);
    }

    /** While the header comes in, everything received is in the buffer. */
    ghost predicate Gathering()
      reads this, buffer, scanner, client
    {
      && Room() && sendPos == 0 && !headerSent && bodySent == 0 && !upgrade && delivered == []
      && client.taken == before
      && buffer[..pos] == raw && scanner.State() == C.START && frame == UntilClose
    }

    /** And its empty line has not come yet. */
    ghost predicate Waiting()
      reads this, buffer, scanner, client
    {
      Gathering() && !Occurs(EMPTY_LINE, raw)
    }

    constructor (client: Socket, kind: Bytes -> Kind, framing: Bytes -> Framing, size: nat)
      ensures stage == RecvHeader && Waiting() && raw == [] && before == client.taken
      ensures fresh(buffer) && fresh(scanner) && buffer.Length == size
      ensures this.client == client && this.kind == kind && this.framing == framing
    {
      this.client, this.kind, this.framing := client, kind, framing;
      scanner := new C.Scanner();
      buffer := new byte[size](_ => 0);
      stage, pos, sendPos, headerEnd := RecvHeader, 0, 0, 0;
      headerSent, bodySent, upgrade, frame := false, 0, false, UntilClose;
      before := client.taken;
      raw, rawHead, head, body, delivered := [], [], [], [], [];
    }

    // ----- towards the client -----

    /** One send of the next `n` octets in the buffer. */
    method Offer(n: nat) returns (r: Sent)
      requires Flow() && 0 < n && sendPos + n <= pos
      modifies `sendPos, `delivered, client
      ensures Flow() && r.n <= n && sendPos == old(sendPos) + r.n && |delivered| == |old(delivered)| + r.n
      ensures old(delivered) <= delivered && (r.Full? ==> r.n < n) && (r.Broken? ==> r.n == 0)
      ensures client.broken == (old(client.broken) || r.Broken?) && (client.willing ==> r == Took(n))
    {
      var w := buffer[sendPos..sendPos + n];
      r := client.Send(w);
      Offered(before, delivered, buffer[..], sendPos, pos, n, r.n);
      delivered := delivered + w[..r.n];
      sendPos := sendPos + r.n;
    }

    static lemma Offered(before: Bytes, delivered: Bytes, w: Bytes, sendPos: nat, pos: nat, n: nat, k: nat)
      requires k <= n && sendPos + n <= pos <= |w|
      ensures var x := w[sendPos..sendPos + n][..k];
              && before + delivered + x == before + (delivered + x)
              && delivered + w[sendPos..pos] == delivered + x + w[sendPos + k..pos]
    {
      var x := w[sendPos..sendPos + n][..k];
      Concat(before, delivered, x);
      assert w[sendPos..pos] == x + w[sendPos + k..pos];
      Concat(delivered, x, w[sendPos + k..pos]);
    }

    /** Send the header. Stops early if the client is full or gone. */
    method SendHeader()
      requires Flow() && Counted() && !headerSent && stage == Streaming
      modifies `sendPos, `delivered, `stage, client
      ensures Flow() && Counted() && old(delivered) <= delivered
      ensures stage == Streaming ==> sendPos == headerEnd
      ensures stage != Streaming ==> sendPos < headerEnd
      ensures stage in {Streaming, WaitWrite, Failed}
      ensures client.broken == (old(client.broken) || stage == Failed) && (client.willing ==> stage == Streaming)
    {
      while sendPos < headerEnd
        invariant Flow() && Counted() && stage == Streaming && old(delivered) <= delivered
        invariant client.broken == old(client.broken)
        decreases headerEnd - sendPos
      {
        var r := Offer(headerEnd - sendPos);
        if r.Broken? {
          stage := Failed;
          return;
        }
        if r.Full? || r.n == 0 {
          stage := WaitWrite;
          return;
        }
      }
    }

    /** Send the body octets in the buffer, counting them. */
    method SendBody()
      requires Flow() && Counted() && headerSent && stage == Streaming
      modifies `sendPos, `delivered, `bodySent, `stage, client
      ensures Flow() && Counted() && old(delivered) <= delivered
      ensures stage == Streaming ==> sendPos == pos
      ensures stage in {Streaming, WaitWrite, Failed}
      ensures client.broken == (old(client.broken) || stage == Failed) && (client.willing ==> stage == Streaming)
    {
      while sendPos < pos
        invariant Flow() && Counted() && stage == Streaming && old(delivered) <= delivered
        invariant client.broken == old(client.broken)
        decreases pos - sendPos
      {
        var r := Offer(pos - sendPos);
        if r.Broken? {
          stage := Failed;
          return;
        }
        bodySent := bodySent + r.n;
        if r.Full? || r.n == 0 {
          stage := WaitWrite;
          return;
        }
      }
    }

    /** Everything received is with the client. */
    ghost predicate AllDelivered()
      reads `head, `body, `delivered
    {
      delivered == head + body
    }

    /** The response is complete by its own framing. */
    ghost predicate Complete()
      reads `frame, `body, scanner
    {
      match frame
      case Sized(n) => |body| >= n
      case Chunked => scanner.phase.Done?
      case _ => false
    }

    /** The header of an upgrade is with the client, and the buffer holds exactly the body
        octets that came with it. */
    ghost predicate AtTunnel()
      reads `sendPos, `pos, `buffer, `head, `body, `delivered, `upgrade, buffer
    {
      Room() && upgrade && delivered == head && buffer[sendPos..pos] == body
    }

    /** Bring the header out. An upgrade leaves for the tunnel behind it, with the
        body octets in the buffer as its first backlog. */
    method PassHeader()
      requires Flow() && Counted() && (headerSent || sendPos < headerEnd) && stage == Streaming
      requires upgrade ==> !headerSent
      modifies `sendPos, `delivered, `headerSent, `stage, client
      ensures Flow() && Counted() && old(delivered) <= delivered && (headerSent || sendPos < headerEnd)
      ensures stage == Streaming ==> headerSent && !upgrade
      ensures stage == InTunnel ==> AtTunnel()
      ensures upgrade && headerSent ==> stage == InTunnel
      ensures stage in {Streaming, WaitWrite, Failed, InTunnel}
      ensures client.broken == (old(client.broken) || stage == Failed)
      ensures client.willing ==> stage == if upgrade then InTunnel else Streaming
    {
      if !headerSent {
        SendHeader();
        if stage == Streaming {
          headerSent := true;
          if upgrade {
            stage := InTunnel;
            SamePrefix(delivered, buffer[sendPos..pos], head, body);
          }
        }
      }
    }

    static lemma SamePrefix(a: Bytes, b: Bytes, c: Bytes, d: Bytes)
      requires a + b == c + d && |a| == |c|
      ensures a == c && b == d
    {
      assert a == (a + b)[..|a|] == c;
      assert b == (a + b)[|a|..] == d;
    }

    /** Empty the buffer towards the client, then ask whether that was all. */
    method PassBody()
      requires Valid() && headerSent && !upgrade && stage == Streaming
      modifies `sendPos, `pos, `delivered, `bodySent, `stage, client
      ensures Valid() && old(delivered) <= delivered
      ensures stage == Streaming ==> AllDelivered() && pos == sendPos == 0 && !Complete()
      ensures stage == Finished ==> AllDelivered() && Complete()
      ensures stage in {Streaming, WaitWrite, Failed, Finished}
      ensures client.broken == (old(client.broken) || stage == Failed)
      ensures client.willing ==> stage == if Complete() then Finished else Streaming
    {
      SendBody();
      if stage == Streaming {
        assert buffer[sendPos..pos] == [];
        pos, sendPos := 0, 0;
        assert buffer[sendPos..pos] == [];
        Settle();
      }
    }

    /** Nothing left to send: finished if the framing says so. */
    method Settle()
      requires Valid() && stage == Streaming && headerSent && pos == sendPos == 0
      modifies `stage
      ensures Valid() && AllDelivered() && stage == if Complete() then Finished else Streaming
    {
      assert delivered + buffer[0..0] == delivered;
      assert |head + body| == |head| + |body|;
      if frame.Sized? && bodySent >= frame.length {
        stage := Finished;
      } else if frame.Chunked? && scanner.phase.Done? {
        stage := Finished;
      }
    }

    /** The streaming state: header, then body. */
    method Process()
      requires Valid() && stage == Streaming
      modifies `sendPos, `pos, `delivered, `bodySent, `headerSent, `stage, client
      ensures Valid() && old(delivered) <= delivered
      ensures stage == Streaming ==> AllDelivered() && pos == sendPos == 0 && headerSent && !upgrade && !Complete()
      ensures stage == Finished ==> AllDelivered() && !upgrade && Complete()
      ensures stage == InTunnel ==> AtTunnel()
      ensures stage in {Streaming, WaitWrite, Failed, Finished, InTunnel}
      ensures client.broken == (old(client.broken) || stage == Failed)
      ensures client.willing ==> stage == if upgrade then InTunnel else if Complete() then Finished else Streaming
    {
      PassHeader();
      if stage == Streaming {
        PassBody();
      }
    }

    /** What the streaming state has come to: everything received is with the client, or
        waits for it, or its socket broke; an end by the null chunk means a whole body. */
    ghost predicate Passed()
      reads this, buffer, scanner, client
    {
      && Valid() && stage in {Streaming, WaitWrite, Failed, Finished, InTunnel}
      && (stage == Streaming ==> AllDelivered() && headerSent && !upgrade && !Complete())
      && (stage == Finished ==> AllDelivered() && !upgrade && Complete() && (frame.Chunked? ==> HoldsWhole()))
      && (stage == InTunnel ==> AtTunnel())
      && (client.willing ==> stage == if upgrade then InTunnel else if Complete() then Finished else Streaming)
    }

    method Pass()
      requires Valid() && stage == Streaming
      modifies `sendPos, `pos, `delivered, `bodySent, `headerSent, `stage, client
      ensures Passed() && old(delivered) <= delivered
      ensures client.broken == (old(client.broken) || stage == Failed)
    {
      Process();
      if stage == Finished && frame.Chunked? {
        WholeBody();
      }
    }

    // ----- from the backend -----

    /** Append to the buffer. */
    method Append(data: Bytes)
      requires Room() && pos + |data| <= buffer.Length
      modifies buffer, `pos
      ensures Room() && pos == old(pos) + |data| && buffer[..pos] == old(buffer[..pos]) + data
      ensures buffer[sendPos..pos] == old(buffer[sendPos..pos]) + data
    {
      var at := pos;
      forall i | 0 <= i < |data| {
        buffer[at + i] := data[i];
      }
      pos := pos + |data|;
    }

    /** Body octets go past the scanner exactly once, if the framing is chunked. */
    method Show(data: Bytes, ghost seen: Bytes)
      requires C.Sane(scanner.State()) && (frame.Chunked? ==> scanner.State() == C.Run(C.START, seen))
      modifies scanner
      ensures C.Sane(scanner.State()) && (frame.Chunked? ==> scanner.State() == C.Run(C.START, seen + data))
    {
      G.RunJoin(C.START, seen, data);
      if frame.Chunked? {
        var _ := scanner.Follow(data);
      }
    }

    /** A header buffered in front of a body, and nothing sent yet. */
    ghost predicate Ready()
      reads `sendPos, `pos, `buffer, `headerEnd, `headerSent, `bodySent, `head, `body, `delivered, buffer, client
    {
      && Flow() && Counted() && !headerSent && sendPos == 0 < headerEnd
      && buffer[..headerEnd] == head && buffer[headerEnd..pos] == body
    }

    static lemma Halves(w: Bytes, pos: nat, end: nat)
      requires end <= pos <= |w|
      ensures w[0..pos] == w[..end] + w[end..pos]
    {
    }

    static lemma Slices(w: Bytes, pos: nat, end: nat)
      requires end <= pos <= |w|
      ensures w[..pos][..end] == w[..end] && w[..pos][end..] == w[end..pos]
    {
    }

    /** The two parts of the buffer are the header and the body, from its front. */
    method Divide(end: nat)
      requires Room() && sendPos == 0 && !headerSent && bodySent == 0 && delivered == [] && client.taken == before
      requires 0 < end <= pos
      modifies `headerEnd, `head, `body
      ensures Ready() && headerEnd == end && head == buffer[..end] && body == buffer[end..pos]
    {
      headerEnd, head, body := end, buffer[..end], buffer[end..pos];
      Halves(buffer[..], pos, end);
      assert before + [] == before && [] + buffer[0..pos] == buffer[0..pos];
    }

    /** The closing of the connection put in force in the buffer. */
    method Inject(end: nat) returns (end': nat)
      requires Gathering() && 2 <= end <= pos
      modifies buffer, `buffer, `pos
      ensures (buffer == old(buffer) || fresh(buffer)) && buffer.Length >= old(buffer.Length)
      ensures 0 < end' <= pos <= buffer.Length
      ensures ClosingHeader(raw[..end], buffer[..end']) && buffer[end'..pos] == raw[end..]
    {
      Slices(buffer[..], pos, end);
      buffer, pos, end' := InjectConnectionClose(buffer, pos, end);
      ClosingIsNotEmpty(raw[..end], buffer[..end']);
    }

    /** The header on its way to the client is the closing one. */
    method Rewrite(end: nat)
      requires Gathering() && 2 <= end <= pos
      modifies buffer, `buffer, `pos, `headerEnd, `rawHead, `head, `body
      ensures (buffer == old(buffer) || fresh(buffer)) && buffer.Length >= old(buffer.Length)
      ensures Ready() && rawHead == raw[..end] && body == raw[end..] && ClosingHeader(rawHead, head)
    {
      rawHead := raw[..end];
      var end' := Inject(end);
      Divide(end');
    }

    static lemma ClosingIsNotEmpty(h: Bytes, r: Bytes)
      requires ClosingHeader(h, r)
      ensures r != []
    {
    }

    /** The header is complete: an upgrade goes out as it is. */
    method BeginUpgrade(end: nat)
      requires Gathering() && stage == RecvHeader && 0 < end <= pos && Header(raw[..end]) && kind(raw[..end]).Upgrade?
      modifies `stage, `upgrade, `headerEnd, `head, `rawHead, `body
      ensures stage == Streaming && Valid() && Origin() && upgrade && rawHead == raw[..end]
    {
      Slices(buffer[..], pos, end);
      rawHead := raw[..end];
      Divide(end);
      assert raw == raw[..end] + raw[end..];
      upgrade, stage := true, Streaming;
    }

    /** Any other response: close the connection behind it, find out how the body is
        framed, and show the scanner what is already there of it. */
    method BeginPlain(end: nat)
      requires Gathering() && stage == RecvHeader && 2 <= end <= pos && Header(raw[..end]) && kind(raw[..end]).Plain?
      modifies buffer, scanner, `buffer, `pos, `headerEnd, `rawHead, `head, `body, `frame, `stage
      ensures (buffer == old(buffer) || fresh(buffer)) && buffer.Length >= old(buffer.Length)
      ensures rawHead == raw[..end]
      ensures if frame.Unusable? then stage == Failed && Refused() else stage == Streaming && Valid() && Origin()
    {
      Rewrite(end);
      assert raw == raw[..end] + raw[end..];
      frame := framing(buffer[..headerEnd]);
      if frame.Unusable? {
        stage := Failed;
      } else {
        StartBody();
      }
    }

    /** The response is not passed on: its kind is refused, or its framing unusable. */
    ghost predicate Refused()
      reads `rawHead, `head
    {
      || kind(rawHead).Rejected?
      || (kind(rawHead).Plain? && ClosingHeader(rawHead, head) && framing(head).Unusable?)
    }

    /** The body octets that came with the header are shown to the scanner. */
    method StartBody()
      requires Ready() && !upgrade && !frame.Unusable? && scanner.State() == C.START
      modifies scanner, `stage
      ensures stage == Streaming && Valid()
    {
      assert C.Run(C.START, []) == C.START;
      assert [] + body == body;
      Show(buffer[headerEnd..pos], []);
      stage := Streaming;
    }

    /** The header is complete: start to stream, unless the response is refused. */
    method Begin(end: nat)
      requires Gathering() && stage == RecvHeader && 4 <= end <= pos && Header(raw[..end])
      modifies buffer, scanner, `buffer, `pos, `headerEnd, `rawHead, `head, `body, `frame, `stage, `upgrade
      ensures (buffer == old(buffer) || fresh(buffer)) && buffer.Length >= old(buffer.Length)
      ensures rawHead == raw[..end]
      ensures if Refused() then stage == Failed else stage == Streaming && Valid() && Origin()
    {
      Slices(buffer[..], pos, end);
      match kind(buffer[..end])
      case Rejected =>
        stage := Failed;
        rawHead := raw[..end];
      case Upgrade => BeginUpgrade(end);
      case Plain => BeginPlain(end);
    }

    static lemma NotBefore(w: Bytes, end: nat, x: Bytes, i: int)
      requires 4 <= end <= |w| && x == w[..end - 1]
      requires forall j :: 0 <= j < end - 4 ==> !OccursAt(EMPTY_LINE, w, j)
      ensures !OccursAt(EMPTY_LINE, x, i)
    {
      if 0 <= i && i + 4 <= |x| {
        assert x[i..i + 4] == w[i..i + 4];
        assert !OccursAt(EMPTY_LINE, w, i);
      }
    }

    static lemma HeadEnds(w: Bytes, end: nat)
      requires 4 <= end <= |w| && OccursAt(EMPTY_LINE, w, end - 4)
      requires forall i :: 0 <= i < end - 4 ==> !OccursAt(EMPTY_LINE, w, i)
      ensures Header(w[..end])
    {
      var h := w[..end];
      var x := h[..|h| - 1];
      assert h[end - 4..] == w[end - 4..end];
      forall i ensures !OccursAt(EMPTY_LINE, x, i) {
        NotBefore(w, end, x, i);
      }
    }

    /** More of the header, or with its end also the start of the body. */
    method Gather(data: Bytes) returns (end: Option<nat>)
      requires Gathering() && |data| <= buffer.Length - pos
      modifies buffer, `pos, `raw
      ensures Gathering() && raw == old(raw) + data
      ensures end.None? <==> !Occurs(EMPTY_LINE, raw)
      ensures end.Some? ==> 4 <= end.value <= pos && Header(raw[..end.value])
    {
      Append(data);
      raw := raw + data;
      end := FindHeaderEnd(buffer[..pos]);
      if end.Some? {
        HeadEnds(raw, end.value);
      }
    }

    /** What the end of the header leads to: the response is refused, or it is passed on. */
    ghost predicate Begun()
      reads this, buffer, scanner, client
    {
      && Header(rawHead) && rawHead <= raw
      && if Refused() then stage == Failed else Passed() && Origin() && (!upgrade ==> CloseInForce(head))
    }

    method BeginAndPass(end: nat)
      requires Gathering() && stage == RecvHeader && 4 <= end <= pos && Header(raw[..end])
      modifies `stage, `buffer, `pos, `sendPos, `headerEnd, `headerSent, `bodySent, `upgrade, `frame
      modifies `rawHead, `head, `body, `delivered, buffer, scanner, client
      ensures (buffer == old(buffer) || fresh(buffer)) && buffer.Length >= old(buffer.Length)
      ensures Begun() && (Refused() ==> client.broken == old(client.broken))
      ensures !Refused() ==> client.broken == (old(client.broken) || stage == Failed)
    {
      Begin(end);
      if stage == Streaming {
        Pass();
        if !upgrade {
          ClosingTold();
        }
      }
    }

    /** Event on the backend while the header is awaited. */
    method OnHeader(read: Read)
      requires Waiting() && stage == RecvHeader
      requires read.Got? && pos < buffer.Length ==> 0 < |read.data| <= buffer.Length - pos
      modifies this, buffer, scanner, client
      ensures (buffer == old(buffer) || fresh(buffer)) && buffer.Length >= old(buffer.Length)
      ensures raw == if old(pos) < old(buffer.Length) then old(raw) + Octets(read) else old(raw)
      ensures stage == RecvHeader <==> old(pos) < old(buffer.Length) && (read.Got? || read.Nothing?) && !Occurs(EMPTY_LINE, raw)
      ensures stage == RecvHeader ==> Waiting()
      ensures Occurs(EMPTY_LINE, raw) ==> Begun()
      ensures !Occurs(EMPTY_LINE, raw) ==> stage in {RecvHeader, Failed} && client.taken == old(client.taken)
      ensures stage == Failed && Occurs(EMPTY_LINE, raw) ==> Refused() || client.broken
      ensures client.broken ==> old(client.broken) || stage == Failed
    {
      if pos >= buffer.Length || Ended(read) {
        stage := Failed;
        return;
      }
      if read.Nothing? {
        return;
      }
      var end := Gather(read.data);
      if end.Some? {
        BeginAndPass(end.value);
      }
    }

    /** The buffer is empty: fill it with new body octets. */
    method Refill(data: Bytes)
      requires Flow() && pos == sendPos && |data| <= buffer.Length
      modifies buffer, `pos, `sendPos, `body, `raw
      ensures Flow() && body == old(body) + data && raw == old(raw) + data
    {
      FlowOn(delivered, buffer[sendPos..pos], head, body, data);
      pos, sendPos := 0, 0;
      assert buffer[sendPos..pos] == [];
      Append(data);
      raw, body := raw + data, body + data;
      assert [] + data == data;
    }

    static lemma FlowOn(delivered: Bytes, w: Bytes, head: Bytes, body: Bytes, data: Bytes)
      requires delivered + w == head + body && w == []
      ensures delivered + data == head + (body + data)
    {
      assert delivered == head + body;
    }

    /** New body octets: into the empty buffer, past the scanner. */
    method TakeBody(data: Bytes)
      requires Valid() && Origin() && headerSent && !upgrade && pos == sendPos && |data| <= buffer.Length
      modifies buffer, scanner, `pos, `sendPos, `raw, `body
      ensures Valid() && Origin() && body == old(body) + data && raw == old(raw) + data
    {
      Show(data, body);
      Refill(data);
      assert raw == rawHead + body;
    }

    ghost predicate SizeReached()
      reads `frame, `bodySent
    {
      frame.Sized? && bodySent >= frame.length
    }

    /** New body octets on their way to the client. */
    method PassOn(data: Bytes)
      requires Valid() && Origin() && stage == Streaming && headerSent && !upgrade && pos == sendPos && |data| <= buffer.Length
      modifies buffer, scanner, `pos, `sendPos, `raw, `body, `delivered, `bodySent, `headerSent, `stage, client
      ensures Passed() && Origin() && raw == old(raw) + data && old(delivered) <= delivered
      ensures client.broken == (old(client.broken) || stage == Failed)
    {
      TakeBody(data);
      Pass();
    }

    /** The end of the backend's octets while the body is streamed: a close is an error only
        if the size announced has not come, a failed read always. */
    ghost predicate EndedBy(read: Read)
      requires Ended(read)
      reads `stage, `frame
    {
      stage == if read.Lost? || frame.Sized? then Failed else Finished
    }

    /** Nothing more comes from the backend. */
    method OnEnd(read: Read)
      requires Valid() && Origin() && stage == Streaming && !upgrade && headerSent && AllDelivered() && Ended(read)
      modifies `stage
      ensures Valid() && EndedBy(read)
      ensures stage == Finished && frame.Chunked? ==> (HoldsWhole() <==> scanner.phase.Done?)
    {
      stage := if read.Lost? || frame.Sized? then Failed else Finished;
      if frame.Chunked? {
        WholeBody();
      }
    }

    /** The buffer is empty, and the backend has something to say. */
    method OnEmpty(read: Read)
      requires Valid() && Origin() && stage == Streaming && !upgrade && headerSent && pos == sendPos
      requires read.Got? ==> 0 < |read.data| <= buffer.Length
      modifies buffer, scanner, `pos, `sendPos, `raw, `body, `delivered, `bodySent, `headerSent, `stage, client
      ensures Valid() && Origin() && old(delivered) <= delivered
      ensures raw == if old(SizeReached()) then old(raw) else old(raw) + Octets(read)
      ensures old(SizeReached()) ==> stage == Finished && AllDelivered() && Complete()
      ensures !old(SizeReached()) && read.Nothing? ==> stage == Streaming && AllDelivered()
      ensures !old(SizeReached()) && (read.Gone? || read.Lost?) ==> EndedBy(read) && AllDelivered()
      ensures !old(SizeReached()) && read.Got? ==> Passed() && client.broken == (old(client.broken) || stage == Failed)
      ensures stage == Finished && frame.Chunked? ==> (HoldsWhole() <==> scanner.phase.Done?)
    {
      Emptied();
      if frame.Sized? && bodySent >= frame.length {
        stage := Finished;
      } else if read.Got? {
        PassOn(read.data);
      } else if read.Nothing? {
        Rewind();
      } else {
        OnEnd(read);
      }
    }

    /** An empty buffer means that everything received is delivered and counted. */
    lemma Emptied()
      requires Valid() && pos == sendPos && headerSent
      ensures AllDelivered() && (SizeReached() ==> Complete())
    {
      assert buffer[sendPos..pos] == [];
      assert |head + body| == |head| + |body|;
    }

    method Rewind()
      requires Valid() && pos == sendPos && headerSent
      modifies `pos, `sendPos
      ensures Valid()
    {
      assert buffer[sendPos..pos] == [];
      pos, sendPos := 0, 0;
      assert buffer[sendPos..pos] == [];
    }

    /** Event on the backend while the body is streamed: send what is there first,
        else read more, or find out what it means that the backend has closed. */
    method OnBody(read: Read)
      requires Valid() && Origin() && stage == Streaming && !upgrade
      requires read.Got? ==> 0 < |read.data| <= buffer.Length
      modifies buffer, scanner, `pos, `sendPos, `raw, `body, `delivered, `bodySent, `headerSent, `stage, client
      ensures Valid() && Origin() && old(delivered) <= delivered
      ensures raw == if old(pos > sendPos) || old(SizeReached()) then old(raw) else old(raw) + Octets(read)
      ensures old(pos > sendPos) || (!old(SizeReached()) && read.Got?) ==>
                Passed() && client.broken == (old(client.broken) || stage == Failed)
      ensures old(pos == sendPos) && old(SizeReached()) ==> stage == Finished && AllDelivered() && Complete()
      ensures old(pos == sendPos) && !old(SizeReached()) && read.Nothing? ==> stage == Streaming && AllDelivered()
      ensures old(pos == sendPos) && !old(SizeReached()) && (read.Gone? || read.Lost?) ==> EndedBy(read) && AllDelivered()
      ensures stage == Finished && frame.Chunked? ==> AllDelivered() && (HoldsWhole() <==> scanner.phase.Done?)
    {
      if pos > sendPos {
        Pass();
      } else {
        OnEmpty(read);
      }
    }

    /** The client is writable again. */
    method OnWritable()
      requires Valid() && Origin() && stage == WaitWrite
      modifies `sendPos, `pos, `delivered, `bodySent, `headerSent, `stage, client
      ensures Passed() && Origin() && old(delivered) <= delivered
      ensures client.broken == (old(client.broken) || stage == Failed)
    {
      stage := Streaming;
      Pass();
    }

    /** With everything delivered, nothing is left in the buffer. */
    lemma Drained()
      requires Flow() && AllDelivered()
      ensures pos == sendPos
    {
      assert |delivered + buffer[sendPos..pos]| == |delivered| + (pos - sendPos);
    }

    /** The client holds the header and a complete chunked body. */
    ghost predicate HoldsWhole()
      reads `head, `delivered
    {
      exists b :: G.BodyOk(b) && head + G.Text(b) <= delivered
    }

    /** With everything received delivered, the client holds a complete chunked body exactly
        if the scanner has seen the null chunk and what ends the body. */
    lemma WholeBody()
      requires Valid() && AllDelivered() && frame.Chunked? && !upgrade
      ensures scanner.phase.Done? <==> HoldsWhole()
    {
      G.DoneIff(body);
      forall b ensures head + G.Text(b) <= delivered <==> G.Text(b) <= body {
        PrefixBehind(head, G.Text(b), body);
      }
    }

    static lemma PrefixBehind(h: Bytes, w: Bytes, body: Bytes)
      ensures h + w <= h + body <==> w <= body
    {
      if h + w <= h + body {
        assert w == (h + w)[|h|..] == (h + body)[..|h + w|][|h|..] == body[..|w|];
      }
      if w <= body {
        assert h + body == h + w + body[|w|..];
      }
    }
  }

  /** The body a client of a chunked response has by now, when its backend closes early. */
  ghost predicate Partial(body: Bytes) {
    forall b :: G.BodyOk(b) ==> !(G.Text(b) <= body)
  }

  lemma {:induction false} PartialPrefix(a: Bytes, b: Bytes)
    requires Partial(b) && a <= b
    ensures Partial(a)
  {
    forall x | G.BodyOk(x) ensures G.Text(x) <= a ==> G.Text(x) <= b {
    }
  }

  lemma {:induction false} NotWhole(head: Bytes, body: Bytes)
    requires Partial(body)
    ensures forall b :: G.BodyOk(b) ==> !(head + G.Text(b) <= head + body)
  {
    forall b | G.BodyOk(b) ensures !(head + G.Text(b) <= head + body) {
      Response.PrefixBehind(head, G.Text(b), body);
    }
  }

  /** A header is where its first empty line ends. */
  lemma {:induction false} HeaderUnique(h: Bytes, x: Bytes)
    requires Header(h) && Header(x) && x <= h
    ensures x == h
  {
    if |x| < |h| {
      assert x[|x| - 4..] == h[..|h| - 1][|x| - 4..|x|];
      assert OccursAt(EMPTY_LINE, h[..|h| - 1], |x| - 4);
    }
  }

  /** A chunked response in its stream: everything received is with the client. */
  ghost predicate Flowing(r: Response, h: Bytes, body: Bytes, size: nat)
    reads r, r.buffer, r.scanner, r.client
  {
    && r.Valid() && r.Origin() && r.stage == Streaming && !r.upgrade && r.frame.Chunked? && r.client.willing
    && r.AllDelivered() && r.rawHead == h && r.body == body && r.buffer.Length >= size
  }

  /** The header through a new response. */
  method StartChunked(client: Socket, h: Bytes, size: nat) returns (r: Response)
    requires client.willing && !client.broken && Header(h) && |h| <= size && Partial([])
    modifies client
    ensures fresh(r) && fresh(r.buffer) && fresh(r.scanner) && r.client == client && Flowing(r, h, [], size)
  {
    r := new Response(client, _ => Plain, _ => Chunked, size);
    r.OnHeader(Got(h, false));
    assert [] + h == h;
    HeaderOccurs(h);
    HeaderUnique(h, r.rawHead);
    assert h + r.body == h;
    StillOpen(r);
  }

  lemma {:induction false} HeaderOccurs(h: Bytes)
    requires Header(h)
    ensures Occurs(EMPTY_LINE, h) && h != []
  {
    assert OccursAt(EMPTY_LINE, h, |h| - 4);
  }

  /** A piece of the body. */
  method StreamChunked(r: Response, h: Bytes, ghost body: Bytes, piece: Bytes, size: nat)
    requires Flowing(r, h, body, size) && 0 < |piece| <= size && Partial(body + piece)
    modifies r, r.buffer, r.scanner, r.client
    ensures Flowing(r, h, body + piece, size) && r.buffer == old(r.buffer)
  {
    r.Drained();
    r.OnBody(Got(piece, false));
    Concat(h, body, piece);
    SuffixCancels(h, r.body, body + piece);
    StillOpen(r);
  }

  /** A client that takes everything has it all, and the response goes on while the body is
      incomplete. */
  lemma {:induction false} StillOpen(r: Response)
    requires r.Passed() && r.client.willing && r.frame.Chunked? && !r.upgrade && Partial(r.body)
    ensures r.stage == Streaming && r.AllDelivered()
  {
    NotWhole(r.head, r.body);
  }

  lemma {:induction false} SuffixCancels(h: Bytes, x: Bytes, y: Bytes)
    requires h + x == h + y
    ensures x == y
  {
    Behind(h, x);
    Behind(h, y);
  }

  /** The whole pieces of a body so far. */
  method StreamPieces(r: Response, h: Bytes, pieces: seq<Bytes>, size: nat)
    requires Flowing(r, h, [], size) && Partial(Joined(pieces)) && forall p :: p in pieces ==> 0 < |p| <= size
    modifies r, r.buffer, r.scanner, r.client
    ensures Flowing(r, h, Joined(pieces), size) && r.buffer == old(r.buffer)
  {
    assert pieces[..0] == [];
    for i := 0 to |pieces|
      invariant Flowing(r, h, Joined(pieces[..i]), size) && r.buffer == old(r.buffer)
    {
      JoinedPrefix(pieces, i);
      PartialPrefix(Joined(pieces[..i]) + pieces[i], Joined(pieces));
      StreamChunked(r, h, Joined(pieces[..i]), pieces[i], size);
    }
    assert pieces[..|pieces|] == pieces;
  }

  /** A backend that closes early behind a chunked response, run through the handlers with a
      client that takes everything: for every header and any pieces that are no complete body,
      the response is finished like every other, with an incomplete body delivered. */
  method EarlyClose(client: Socket, h: Bytes, pieces: seq<Bytes>, size: nat) returns (r: Response)
    requires client.willing && !client.broken && Header(h) && |h| <= size && Partial(Joined(pieces))
    requires forall p :: p in pieces ==> 0 < |p| <= size
    modifies client
    ensures r.Valid() && r.Origin() && r.rawHead == h && r.raw == h + Joined(pieces) && r.frame.Chunked?
    ensures r.stage == Finished && r.AllDelivered() && !r.HoldsWhole()
  {
    PartialPrefix([], Joined(pieces));
    r := StartChunked(client, h, size);
    StreamPieces(r, h, pieces, size);
    CloseEarly(r, h, Joined(pieces), size);
  }

  method CloseEarly(r: Response, h: Bytes, ghost body: Bytes, size: nat)
    requires Flowing(r, h, body, size) && Partial(body)
    modifies r, r.buffer, r.scanner, r.client
    ensures r.Valid() && r.Origin() && r.rawHead == h && r.raw == h + body && r.frame.Chunked?
    ensures r.stage == Finished && r.AllDelivered() && !r.HoldsWhole()
  {
    r.Drained();
    r.OnBody(Gone);
    NotWhole(r.head, body);
  }
}
