/** The sockets of the reverse proxy as it sees them: sends with any answer, reads with any
    outcome, and a log of the octets a socket has really taken. */
module ProxySocket {
  import opened Bytes
  import opened Sequences

  /** A read from a socket: data, nothing at the moment, the peer has closed, or the read
      has failed. `pending`: the TLS layer holds more that no event will announce. */
  datatype Read = Got(data: Bytes, pending: bool) | Nothing | Gone | Lost

  /** The peer has closed, or the read has failed. */
  predicate Ended(r: Read) {
    r.Gone? || r.Lost?
  }

  datatype Sent = Took(n: nat) | Full(n: nat) | Broken(n: nat)

  class Socket {
    const willing: bool        // takes whatever it is given, at once
    var broken: bool
    ghost var taken: Bytes     // all octets it has taken, in order

    constructor (willing: bool)
      ensures taken == [] && !broken && this.willing == willing
    {
      this.willing, broken, taken := willing, false, [];
    }

    /** The socket takes any part of what it is given, from the front; it is full only if
        it did not take all, and takes nothing once broken. */
    method Send(w: Bytes) returns (r: Sent)
      requires w != []
      modifies this
      ensures r.n <= |w| && taken == old(taken) + w[..r.n]
      ensures (r.Full? ==> r.n < |w|) && (r.Broken? ==> r.n == 0)
      ensures broken == (old(broken) || r.Broken?) && (willing ==> r == Took(|w|))
    {
      if willing {
        r := Took(|w|);
      } else {
        assert Took(0).n <= |w|;
        r :| r.n <= |w| && (r.Full? ==> r.n < |w|) && (r.Broken? ==> r.n == 0);
      }
      broken := broken || r.Broken?;
      taken := taken + w[..r.n];
    }

    /** A socket without TLS takes nothing when it is full. */
    method SendPlain(w: Bytes) returns (r: Sent)
      requires w != []
      modifies this
      ensures r.n <= |w| && taken == old(taken) + w[..r.n]
      ensures !r.Took? ==> r.n == 0
      ensures broken == (old(broken) || r.Broken?) && (willing ==> r == Took(|w|))
    {
      if willing {
        r := Took(|w|);
      } else {
        assert Took(0).n <= |w|;
        r :| r.n <= |w| && (!r.Took? ==> r.n == 0);
      }
      broken := broken || r.Broken?;
      taken := taken + w[..r.n];
    }
  }

  /** What a number of reads brought. */
  function DataOf(input: seq<Read>): Bytes {
    if input == [] then []
    else DataOf(input[..|input| - 1]) + if input[|input| - 1].Got? then input[|input| - 1].data else []
  }

  /** One more read that brought data. */
  lemma {:induction false} DataJoin(w: Bytes, input: seq<Read>, n: nat)
    requires n < |input| && input[n].Got?
    ensures w + DataOf(input[..n + 1]) == w + DataOf(input[..n]) + input[n].data
  {
    assert input[..n + 1][..n] == input[..n];
    Concat(w, DataOf(input[..n]), input[n].data);
  }
}
