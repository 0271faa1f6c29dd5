/** From the streamed response of an upgrade to its tunnel. */
module ProxyUpgrade {
  import opened Bytes
  import opened ProxySocket
  import S = ProxyStream
  import T = ProxyTunnel

  /** The tunnel takes over the response buffer: what is left in it behind the header, the
      body octets that came early, is its first backlog towards the client. */
  method EnterTunnel(r: S.Response, backend: Socket, request: array<byte>) returns (t: T.Connection)
    requires r.Valid() && r.AtTunnel() && r.stage == S.InTunnel && request != r.buffer && backend != r.client
    modifies r.client
    ensures fresh(t) && t.request == request && t.response == r.buffer && t.client == r.client && t.backend == backend
    ensures t.Conserved() && t.state in {T.Tunnel, T.Error} && (t.state == T.Tunnel ==> t.Valid() && t.Armed())
    ensures t.fromBackend == r.body && t.fromClient == t.toBackend == []
    ensures r.client.taken == r.before + r.head + t.toClient
    ensures (t.state == T.Error ==> r.client.broken) && (r.client.willing ==> t.state == T.Tunnel && t.toClient == r.body)
  {
    t := new T.Connection(r.client, backend, request, r.buffer, r.sendPos, r.pos);
    t.Enter();
  }
}
