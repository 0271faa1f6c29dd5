/** The websocket tunnel of the reverse proxy: one backlog per direction, and an
    event registration that follows the backlogs. */
module ProxyTunnel {
  import opened Bytes
  import opened Sequences
  import opened ProxySocket

  datatype State = Tunnel | Done | Error

  /** The events a socket is registered for. */
  datatype Arm = Arm(read: bool, write: bool)

  /** What an event on the backend came to: its socket broke, the client side was driven and
      took `n` of its reads, or the backend was read. */
  datatype Turn = Stopped | Driven(n: nat) | Served

  class Connection {
    const client: Socket
    const backend: Socket
    const request: array<byte>
    const response: array<byte>

    var state: State
    var c2bLen: nat
    var c2bSent: nat
    var b2cLen: nat
    var b2cSent: nat
    var clientArm: Arm
    var backendArm: Arm

    ghost const clientBase: Bytes    // what the sockets had taken before the tunnel
    ghost const backendBase: Bytes
    ghost var fromClient: Bytes      // what was read from them in the tunnel
    ghost var fromBackend: Bytes
    ghost var toClient: Bytes        // what they have taken in the tunnel
    ghost var toBackend: Bytes

    ghost predicate Bounds()
      reads `c2bLen, `c2bSent, `b2cLen, `b2cSent
    {
      && request != response && client != backend
      && c2bSent <= c2bLen <= request.Length && b2cSent <= b2cLen <= response.Length
    }

    /** Towards the backend nothing is lost, repeated or reordered: what was read from the
        client is what the backend's socket has taken and what waits for it. */
    ghost predicate Upward()
      reads `c2bLen, `c2bSent, `b2cLen, `b2cSent, `fromClient, `toBackend, request, backend
    {
      && Bounds() && backend.taken == backendBase + toBackend
      && fromClient == toBackend + request[c2bSent..c2bLen]
    }

    ghost predicate Downward()
      reads `c2bLen, `c2bSent, `b2cLen, `b2cSent, `fromBackend, `toClient, response, client
    {
      && Bounds() && client.taken == clientBase + toClient
      && fromBackend == toClient + response[b2cSent..b2cLen]
    }

    ghost predicate Conserved()
      reads this, request, response, client, backend
    {
      Upward() && Downward()
    }

    /** A backlog is there exactly if data waits in it. */
    ghost predicate Tidy()
      reads `c2bLen, `c2bSent, `b2cLen, `b2cSent
    {
      (c2bLen == 0 || c2bSent < c2bLen) && (b2cLen == 0 || b2cSent < b2cLen)
    }

    ghost predicate Valid()
      reads this, request, response, client, backend
    {
      Conserved() && Tidy()
    }

    /** A side is read from exactly while nothing waits that came from it, and
        watched for writing exactly while something waits for it. */
    ghost predicate Armed()
      reads `clientArm, `backendArm, `fromClient, `toBackend, `fromBackend, `toClient
    {
      && clientArm == Arm(fromClient == toBackend, fromBackend != toClient)
      && backendArm == Arm(fromBackend == toClient, fromClient != toBackend)
    }

    /** The tunnel opens behind the response header; what the backend sent past the
        header is the first backlog. */
    constructor (client: Socket, backend: Socket, request: array<byte>, response: array<byte>, sent: nat, len: nat)
      requires request != response && client != backend && sent <= len <= response.Length
      ensures this.client == client && this.backend == backend && this.request == request && this.response == response
      ensures Valid() && state == Tunnel && clientBase == client.taken && backendBase == backend.taken
      ensures fromBackend == response[sent..len] && toClient == [] && fromClient == [] && toBackend == []
    {
      this.client, this.backend, this.request, this.response := client, backend, request, response;
      state := Tunnel;
      c2bLen, c2bSent := 0, 0;
      b2cLen, b2cSent := if sent >= len then 0 else len, if sent >= len then 0 else sent;
      clientArm, backendArm := Arm(false, false), Arm(false, false);
      clientBase, backendBase := client.taken, backend.taken;
      fromClient, toBackend, toClient := [], [], [];
      fromBackend := response[sent..len];
    }

    /** Octets of a backlog that a socket has taken change sides. */
    static lemma Pushed(base: Bytes, to: Bytes, buffer: Bytes, sent: nat, len: nat, n: nat)
      requires sent + n <= len <= |buffer|
      ensures var w := buffer[sent..len];
              && base + to + w[..n] == base + (to + w[..n])
              && to + w == (to + w[..n]) + buffer[sent + n..len]
    {
      var w := buffer[sent..len];
      Concat(base, to, w[..n]);
      assert w == w[..n] + buffer[sent + n..len];
      Concat(to, w[..n], buffer[sent + n..len]);
    }

    /** One send towards the backend. */
    method PushUp() returns (r: Sent)
      requires Upward() && c2bSent < c2bLen
      modifies `c2bSent, `toBackend, backend
      ensures Upward() && c2bSent == old(c2bSent) + r.n && old(toBackend) <= toBackend
      ensures backend.broken == (old(backend.broken) || r.Broken?) && (backend.willing ==> r == Took(c2bLen - old(c2bSent)))
      ensures r.n <= c2bLen - old(c2bSent) && (!r.Took? ==> r.n == 0)
    {
      var w := request[c2bSent..c2bLen];
      r := backend.SendPlain(w);
      Pushed(backendBase, toBackend, request[..], c2bSent, c2bLen, r.n);
      toBackend := toBackend + w[..r.n];
      c2bSent := c2bSent + r.n;
    }

    /** Push what waits for the backend. */
    method FlushToBackend() returns (ok: bool)
      requires Upward()
      modifies `c2bLen, `c2bSent, `toBackend, backend
      ensures Upward() && (ok ==> c2bLen == 0 || c2bSent < c2bLen)
      ensures old(toBackend) <= toBackend && (c2bLen == 0 || c2bLen == old(c2bLen))
      ensures backend.broken == (old(backend.broken) || !ok) && (backend.willing ==> ok && c2bLen == 0)
    {
      while c2bSent < c2bLen
        invariant Upward() && c2bLen == old(c2bLen) && old(toBackend) <= toBackend
        invariant backend.broken == old(backend.broken)
        decreases c2bLen - c2bSent
      {
        var r := PushUp();
        if r.Broken? {
          return false;
        }
        if r.Full? || r.n == 0 {
          return true;
        }
      }
      c2bLen, c2bSent := 0, 0;
      ok := true;
    }

    /** One send towards the client. */
    method PushDown() returns (r: Sent)
      requires Downward() && b2cSent < b2cLen
      modifies `b2cSent, `toClient, client
      ensures Downward() && b2cSent == old(b2cSent) + r.n && old(toClient) <= toClient
      ensures client.broken == (old(client.broken) || r.Broken?) && (client.willing ==> r == Took(b2cLen - old(b2cSent)))
      ensures r.n <= b2cLen - old(b2cSent) && (r.Full? ==> b2cSent < b2cLen)
    {
      var w := response[b2cSent..b2cLen];
      r := client.Send(w);
      Pushed(clientBase, toClient, response[..], b2cSent, b2cLen, r.n);
      toClient := toClient + w[..r.n];
      b2cSent := b2cSent + r.n;
    }

    /** Push what waits for the client; what was taken counts even if the send
        buffer is full then. */
    method FlushToClient() returns (ok: bool)
      requires Downward()
      modifies `b2cLen, `b2cSent, `toClient, client
      ensures Downward() && (ok ==> b2cLen == 0 || b2cSent < b2cLen)
      ensures old(toClient) <= toClient && (b2cLen == 0 || b2cLen == old(b2cLen))
      ensures client.broken == (old(client.broken) || !ok) && (client.willing ==> ok && b2cLen == 0)
    {
      while b2cSent < b2cLen
        invariant Downward() && b2cLen == old(b2cLen) && old(toClient) <= toClient
        invariant client.broken == old(client.broken)
        decreases b2cLen - b2cSent
      {
        var r := PushDown();
        if r.Broken? {
          return false;
        }
        if r.Full? || r.n == 0 {
          return true;
        }
      }
      b2cLen, b2cSent := 0, 0;
      ok := true;
    }

    /** The response header is out: what the backend sent past it goes on to the client,
        and both sockets are registered for the tunnel. */
    method Enter()
      requires Valid() && state == Tunnel
      modifies `state, `b2cLen, `b2cSent, `toClient, `clientArm, `backendArm, client
      ensures Conserved() && (state == Tunnel ==> Valid() && Armed()) && state in {Tunnel, Error}
      ensures old(toClient) <= toClient && (state == Error ==> client.broken)
      ensures client.willing ==> state == Tunnel && toClient == fromBackend
    {
      if b2cLen > 0 {
        var ok := FlushToClient();
        if !ok {
          state := Error;
          return;
        }
      }
      UpdateEvents();
      WaitingIsBacklog();
    }

    /** Register each socket for what its backlogs call for. */
    method UpdateEvents()
      requires Valid()
      modifies `clientArm, `backendArm
      ensures Armed()
    {
      clientArm := Arm(c2bLen == 0, b2cLen > 0);
      backendArm := Arm(b2cLen == 0, c2bLen > 0);
      WaitingIsBacklog();
    }

    /** Data waits in a direction exactly if its backlog is not empty. */
    lemma WaitingIsBacklog()
      requires Valid()
      ensures fromClient != toBackend <==> c2bLen > 0
      ensures fromBackend != toClient <==> b2cLen > 0
    {
      assert |fromClient| == |toBackend| + (c2bLen - c2bSent);
      assert |fromBackend| == |toClient| + (b2cLen - b2cSent);
    }

    /** No backlog without its drain armed, and never both sockets unwatched. */
    lemma Drained()
      requires Valid() && Armed()
      ensures c2bLen > 0 ==> backendArm.write && !clientArm.read
      ensures b2cLen > 0 ==> clientArm.write && !backendArm.read
      ensures clientArm.read || clientArm.write || backendArm.read || backendArm.write
    {
      WaitingIsBacklog();
    }

    /** Take data from the client into the empty backlog. */
    method TakeFromClient(data: Bytes)
      requires Upward() && c2bLen == 0 && 0 < |data| <= request.Length
      modifies request, `c2bLen, `c2bSent, `fromClient
      ensures Upward() && fromClient == old(fromClient) + data && c2bLen == |data|
    {
      forall i | 0 <= i < |data| {
        request[i] := data[i];
      }
      c2bLen, c2bSent := |data|, 0;
      fromClient := fromClient + data;
      assert request[..|data|] == data;
    }

    method TakeFromBackend(data: Bytes)
      requires Downward() && b2cLen == 0 && 0 < |data| <= response.Length
      modifies response, `b2cLen, `b2cSent, `fromBackend
      ensures Downward() && fromBackend == old(fromBackend) + data && b2cLen == |data|
    {
      forall i | 0 <= i < |data| {
        response[i] := data[i];
      }
      b2cLen, b2cSent := |data|, 0;
      fromBackend := fromBackend + data;
      assert response[..|data|] == data;
    }

    /** What the reads of one event bring fits the buffer they are read into. */
    static ghost predicate Fits(input: seq<Read>, size: nat) {
      forall i :: 0 <= i < |input| && input[i].Got? ==> 0 < |input[i].data| <= size
    }

    /** The read `n` of the input; there is nothing behind its end. */
    static function Next(input: seq<Read>, n: nat): Read {
      if n < |input| then input[n] else Nothing
    }

    /** There was no more to read behind the first `n` reads. */
    static predicate ReadOut(input: seq<Read>, n: nat) {
      n >= |input| || input[n].Nothing? || (n > 0 && input[n - 1].Got? && !input[n - 1].pending)
    }

    /** The read behind the first `n` is the last: the peer has closed, or it has failed. */
    static predicate EndsAt(input: seq<Read>, n: nat) {
      n < |input| && (input[n].Gone? || input[n].Lost?)
    }

    /** `n` reads brought data, all but the last with more of it pending in the TLS layer. */
    static ghost predicate AllGot(input: seq<Read>, n: nat) {
      n <= |input| && (forall i :: 0 <= i < n ==> input[i].Got? && (i < n - 1 ==> input[i].pending))
    }

    /** One read from the client and what it brings goes to the backend. */
    method PassUp(data: Bytes)
      requires Upward() && c2bLen == 0 && state == Tunnel && 0 < |data| <= request.Length
      modifies request, `state, `c2bLen, `c2bSent, `fromClient, `toBackend, backend
      ensures Upward() && fromClient == old(fromClient) + data && old(toBackend) <= toBackend
      ensures state in {Tunnel, Error} && (state == Tunnel ==> c2bLen == 0 || c2bSent < c2bLen)
      ensures backend.broken == (old(backend.broken) || state == Error)
      ensures backend.willing ==> state == Tunnel && c2bLen == 0
    {
      TakeFromClient(data);
      var ok := FlushToBackend();
      if !ok {
        state := Error;
      }
    }

    /** The same for the read `n`, after the reads before it. */
    method PassNext(input: seq<Read>, n: nat, ghost start: Bytes)
      requires Upward() && c2bLen == 0 && state == Tunnel && Fits(input, request.Length) && n < |input| && input[n].Got?
      requires fromClient == start + DataOf(input[..n])
      modifies request, `state, `c2bLen, `c2bSent, `fromClient, `toBackend, backend
      ensures Upward() && fromClient == start + DataOf(input[..n + 1]) && old(toBackend) <= toBackend
      ensures state in {Tunnel, Error} && (state == Tunnel ==> c2bLen == 0 || c2bSent < c2bLen)
      ensures backend.broken == (old(backend.broken) || state == Error)
    {
      DataJoin(start, input, n);
      PassUp(input[n].data);
    }

    static lemma AllGotMore(input: seq<Read>, n: nat)
      requires n < |input| && AllGot(input, n) && input[n].Got? && (n > 0 ==> input[n - 1].pending)
      ensures AllGot(input, n + 1)
    {
    }

    /** Read from the client as long as nothing waits for the backend and the TLS layer
        holds more. The first `n` reads brought data, and all of it is on its way. */
    method ReadClient(input: seq<Read>) returns (n: nat)
      requires Upward() && (c2bLen == 0 || c2bSent < c2bLen) && state == Tunnel && Fits(input, request.Length)
      modifies request, `state, `c2bLen, `c2bSent, `fromClient, `toBackend, backend
      ensures Upward() && (state == Tunnel ==> c2bLen == 0 || c2bSent < c2bLen)
      ensures AllGot(input, n) && fromClient == old(fromClient) + DataOf(input[..n]) && old(toBackend) <= toBackend
      ensures old(c2bLen) > 0 ==> n == 0 && state == Tunnel
      ensures old(c2bLen) == 0 && state == Tunnel ==>
                c2bLen > 0 || ReadOut(input, n)
      ensures state == Done ==> EndsAt(input, n)
      ensures backend.broken == (old(backend.broken) || state == Error)
    {
      n := 0;
      var more := true;
      while c2bLen == 0 && more
        invariant Upward() && state == Tunnel && (c2bLen == 0 || c2bSent < c2bLen)
        invariant AllGot(input, n) && (more ==> n > 0 ==> input[n - 1].pending)
        invariant fromClient == old(fromClient) + DataOf(input[..n]) && old(toBackend) <= toBackend
        invariant old(c2bLen) > 0 ==> c2bLen > 0 && n == 0
        invariant old(c2bLen) == 0 && !more ==> ReadOut(input, n)
        invariant backend.broken == old(backend.broken)
        decreases |input| - n, more
      {
        var r := Next(input, n);
        if r.Nothing? {
          more := false;
        } else if Ended(r) {
          state := Done;
          return;
        } else {
          PassNext(input, n, old(fromClient));
          AllGotMore(input, n);
          n := n + 1;
          if state == Error {
            return;
          }
          more := r.pending;
        }
      }
    }

    /** Event on the client socket: drain towards the client, then read. */
    method OnClient(input: seq<Read>) returns (n: nat)
      requires Valid() && state == Tunnel && Fits(input, request.Length)
      modifies `state, `c2bLen, `c2bSent, `b2cLen, `b2cSent, `fromClient, `toBackend, `toClient, `clientArm, `backendArm
      modifies request, client, backend
      ensures Conserved() && (state == Tunnel ==> Valid() && Armed())
      ensures AllGot(input, n) && fromClient == old(fromClient) + DataOf(input[..n])
      ensures old(toBackend) <= toBackend && old(toClient) <= toClient
      ensures old(c2bLen) > 0 ==> n == 0
      ensures old(c2bLen) == 0 && state == Tunnel ==>
                fromClient != toBackend || ReadOut(input, n)
      ensures state == Done ==> client.broken || EndsAt(input, n)
      ensures state == Error ==> backend.broken
      ensures client.willing && state == Tunnel ==> toClient == fromBackend
      ensures state == Tunnel ==> client.broken == old(client.broken) && backend.broken == old(backend.broken)
    {
      n := 0;
      if b2cLen > 0 {
        var ok := FlushToClient();
        if !ok {
          state := Done;
          assert input[..0] == [];
          return;
        }
      }
      n := ReadClient(input);
      if state == Tunnel {
        UpdateEvents();
        WaitingIsBacklog();
      }
    }

    /** Read from the backend, unless something still waits for the client. */
    method ReadBackend(read: Read)
      requires Downward() && (b2cLen == 0 || b2cSent < b2cLen) && state == Tunnel && Fits([read], response.Length)
      modifies response, `state, `b2cLen, `b2cSent, `fromBackend, `toClient, client
      ensures Downward() && (state == Tunnel ==> b2cLen == 0 || b2cSent < b2cLen)
      ensures old(toClient) <= toClient
      ensures fromBackend == if old(b2cLen) == 0 && read.Got? then old(fromBackend) + read.data else old(fromBackend)
      ensures state == Done <==> old(b2cLen) == 0 && (read.Gone? || read.Lost?)
      ensures client.broken == (old(client.broken) || state == Error)
    {
      if b2cLen > 0 || read.Nothing? {
        return;
      }
      if Ended(read) {
        state := Done;
        return;
      }
      assert read == [read][0];
      TakeFromBackend(read.data);
      var ok := FlushToClient();
      if !ok {
        state := Error;
      }
    }

    /** The same, with the registration that follows. */
    method ServeBackend(read: Read)
      requires Valid() && state == Tunnel && Fits([read], response.Length)
      modifies response, `state, `b2cLen, `b2cSent, `fromBackend, `toClient, `clientArm, `backendArm, client
      ensures Conserved() && (state == Tunnel ==> Valid() && Armed())
      ensures old(toClient) <= toClient
      ensures fromBackend == if old(b2cLen) == 0 && read.Got? then old(fromBackend) + read.data else old(fromBackend)
      ensures state == Done <==> old(b2cLen) == 0 && (read.Gone? || read.Lost?)
      ensures client.broken == (old(client.broken) || state == Error)
    {
      ReadBackend(read);
      if state == Tunnel {
        UpdateEvents();
      }
    }

    /** Event on the backend socket: drain towards the backend - and then let the
        client side take what its TLS layer still holds - or read. */
    method OnBackend(read: Read, clientPending: bool, clientInput: seq<Read>) returns (turn: Turn)
      requires Valid() && state == Tunnel && Fits([read], response.Length) && Fits(clientInput, request.Length)
      modifies `state, `c2bLen, `c2bSent, `b2cLen, `b2cSent, `fromClient, `fromBackend, `toBackend, `toClient
      modifies `clientArm, `backendArm, request, response, client, backend
      ensures Conserved() && (state == Tunnel ==> Valid() && Armed())
      ensures old(toBackend) <= toBackend && old(toClient) <= toClient
      ensures turn.Stopped? ==> state == Error && backend.broken
      ensures state == Tunnel ==> client.broken == old(client.broken) && backend.broken == old(backend.broken)
      ensures fromBackend ==
              if turn.Served? && old(b2cLen) == 0 && read.Got? then old(fromBackend) + read.data else old(fromBackend)
      ensures turn.Driven? ==>
                && clientPending && old(c2bLen) > 0 && AllGot(clientInput, turn.n)
                && fromClient == old(fromClient) + DataOf(clientInput[..turn.n])
                && (state == Tunnel ==> fromClient != toBackend || ReadOut(clientInput, turn.n))
                && (state == Done ==> client.broken || EndsAt(clientInput, turn.n))
      ensures !turn.Driven? ==> fromClient == old(fromClient)
      ensures turn.Served? ==>
                && (clientPending && old(c2bLen) > 0 ==> fromClient != toBackend)
                && (state == Done <==> old(b2cLen) == 0 && (read.Gone? || read.Lost?))
                && (state == Error ==> client.broken)
    {
      if c2bLen > 0 {
        var ok := FlushToBackend();
        if !ok {
          state := Error;
          return Stopped;
        }
        WaitingIsBacklog();
        if c2bLen == 0 && clientPending {
          var n := OnClient(clientInput);
          return Driven(n);
        }
      }
      ServeBackend(read);
      turn := Served;
    }
  }
}
