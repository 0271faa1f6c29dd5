/** The send queue of a websocket: chunks of at most 2000 bytes, written in pieces and
    removed when they are out, and how the sweep knows that its ping has left. */
module WsQueue {
  import opened Bytes
  import opened Sequences
  import opened Wrapping

  const CHUNK: nat := 2000

  type Chunks = seq<Bytes>

  ghost predicate Fits(c: Chunks) {
    forall i :: 0 <= i < |c| ==> |c[i]| <= 2000
  }

  /** `d` is `c` with data appended: only the last chunk grows, chunks are added behind it. */
  ghost predicate Grown(c: Chunks, d: Chunks) {
    && |c| <= |d|
    && (forall i :: 0 <= i < |c| - 1 ==> d[i] == c[i])
    && (c != [] ==> c[|c| - 1] <= d[|c| - 1])
  }

  lemma {:induction false} GrownTrans(c: Chunks, d: Chunks, e: Chunks)
    requires Grown(c, d) && Grown(d, e)
    ensures Grown(c, e)
  {
    if c != [] {
      assert d[|c| - 1] <= e[|c| - 1];
    }
  }

  /** Append to the last chunk of a list that has one. */
  function AddToLast(c: Chunks, text: Bytes): Chunks
    requires c != []
  {
    c[|c| - 1 := c[|c| - 1] + text]
  }

  lemma {:induction false} AddedToLast(c: Chunks, text: Bytes)
    requires c != []
    ensures Joined(AddToLast(c, text)) == Joined(c) + text && Grown(c, AddToLast(c, text))
  {
    var a, z := c[..|c| - 1], c[|c| - 1];
    assert c == a + [z] && AddToLast(c, text) == a + [z + text];
    JoinedConcat(a, [z]);
    JoinedConcat(a, [z + text]);
    JoinedOne(z);
    JoinedOne(z + text);
  }

  lemma {:induction false} AddedChunk(c: Chunks)
    ensures Joined(c + [[]]) == Joined(c) && Grown(c, c + [[]])
  {
    JoinedConcat(c, [[]]);
    JoinedOne([]);
  }

  /** `r` is `list` with the text `done` appended. */
  ghost predicate Appended(list: Chunks, r: Chunks, done: Bytes) {
    Fits(r) && Grown(list, r) && Joined(r) == Joined(list) + done
  }

  lemma {:induction false} AppendedChunk(list: Chunks, r: Chunks, done: Bytes)
    requires Appended(list, r, done)
    ensures Appended(list, r + [[]], done)
  {
    AddedChunk(r);
    GrownTrans(list, r, r + [[]]);
  }

  lemma {:induction false} AppendedPiece(list: Chunks, r: Chunks, done: Bytes, piece: Bytes)
    requires Appended(list, r, done) && r != [] && |r[|r| - 1]| + |piece| <= CHUNK
    ensures Appended(list, AddToLast(r, piece), done + piece)
  {
    AddedToLast(r, piece);
    GrownTrans(list, r, AddToLast(r, piece));
    assert Joined(list) + done + piece == Joined(list) + (done + piece);
  }

  /** From the last of `n` chunks on all chunks are full but for the last one. */
  ghost predicate Packed(n: nat, r: Chunks) {
    forall i :: 0 <= i < |r| - 1 && n <= i + 1 ==> |r[i]| == 2000
  }

  lemma {:induction false} PackedChunk(n: nat, r: Chunks)
    requires Packed(n, r) && (r != [] ==> |r[|r| - 1]| == 2000)
    ensures Packed(n, r + [[]])
  {
  }

  lemma {:induction false} PackedPiece(n: nat, r: Chunks, piece: Bytes)
    requires Packed(n, r) && r != []
    ensures Packed(n, AddToLast(r, piece))
  {
  }

  /** Append text: what fits goes into the last chunk, the rest into new ones. */
  method WriteChunk(list: Chunks, text: Bytes) returns (r: Chunks)
    requires Fits(list)
    ensures Appended(list, r, text) && r != []
    ensures text != [] ==> r[|r| - 1] != []
    ensures Packed(|list|, r)
  {
    r := list;
    if r == [] {
      AppendedChunk(list, r, []);
      r := r + [[]];
    }
    var offset, open := 0, |r[|r| - 1]| <= CHUNK;
    while offset < |text|
      invariant offset <= |text| && r != [] && Appended(list, r, text[..offset])
      invariant offset > 0 ==> r[|r| - 1] != []
      invariant Packed(|list|, r)
      invariant !open ==> offset == |text| || |r[|r| - 1]| == 2000
      decreases |text| - offset, open
    {
      if !open {
        AppendedChunk(list, r, text[..offset]);
        PackedChunk(|list|, r);
        r := r + [[]];
      }
      var room := CHUNK - |r[|r| - 1]|;
      var n := if |text| - offset < room then |text| - offset else room;
      AppendedPiece(list, r, text[..offset], text[offset..offset + n]);
      PackedPiece(|list|, r, text[offset..offset + n]);
      assert text[..offset + n] == text[..offset] + text[offset..offset + n];
      r := AddToLast(r, text[offset..offset + n]);
      offset, open := offset + n, false;
    }
    assert text[..offset] == text;
  }

  datatype Status = NoMoreData | BufferFull | Failed

  /** What the platform answers to a send. */
  datatype Answer = Answer(status: Status, count: nat)

  /** Where a ping ends: in which chunk, counting all chunks of the connection from 1,
      how far into it, and how many bytes go out before and with it. */
  datatype Ping = Ping(chunk: nat, end: nat, offset: nat)

  /** The ping's place agrees with its byte offset, when `sent` chunks with `gone` bytes
      have been removed: it is behind, or it ends in the first chunk, or in the rest. */
  ghost predicate Located(p: Ping, sent: nat, gone: nat, c: Chunks)
    decreases |c|
  {
    if p.chunk <= sent then p.offset <= gone
    else if c == [] then false
    else if p.chunk == sent + 1 then 0 < p.end <= |c[0]| && p.offset == gone + p.end
    else Located(p, sent + 1, gone + |c[0]|, c[1..])
  }

  lemma {:induction false} LocatedGrown(p: Ping, sent: nat, gone: nat, c: Chunks, d: Chunks)
    requires Located(p, sent, gone, c) && Grown(c, d)
    ensures Located(p, sent, gone, d)
    decreases |c|
  {
    if p.chunk > sent {
      assert c[0] <= d[0];
      if p.chunk > sent + 1 {
        LocatedGrown(p, sent + 1, gone + |c[0]|, c[1..], d[1..]);
      }
    }
  }

  /** The first chunk is out. */
  lemma {:induction false} LocatedShift(p: Ping, sent: nat, gone: nat, c: Chunks)
    requires c != [] && Located(p, sent, gone, c)
    ensures Located(p, sent + 1, gone + |c[0]|, c[1..])
  {
  }

  /** A ping that is not behind is ahead. */
  lemma {:induction false} LocatedAhead(p: Ping, sent: nat, gone: nat, c: Chunks)
    requires Located(p, sent, gone, c) && p.chunk > sent
    ensures p.offset > gone
    decreases |c|
  {
    if p.chunk > sent + 1 {
      LocatedAhead(p, sent + 1, gone + |c[0]|, c[1..]);
    }
  }

  /** The ping is out when its place is behind the send position. */
  lemma {:induction false} LocatedOut(p: Ping, sent: nat, gone: nat, c: Chunks, pos: nat)
    requires Located(p, sent, gone, c) && if c == [] then pos == 0 else pos <= |c[0]|
    ensures p.offset <= gone + pos <==> p.chunk <= sent || (p.chunk == sent + 1 && p.end <= pos)
  {
    if p.chunk > sent + 1 {
      LocatedAhead(p, sent + 1, gone + |c[0]|, c[1..]);
    }
  }

  /** The comparison the sweep makes, on 32-bit counters. */
  function PingOut(chunksSent: nat, sendPos: nat, pingSeq: nat, pingEnd: nat): bool {
    (chunksSent - pingSeq) % WRAP < WRAP / 2 || ((chunksSent + 1) % WRAP == pingSeq && pingEnd <= sendPos)
  }

  /** A counter of 32 bits that has wrapped around `wraps` times. */
  ghost predicate Low(c: nat, wraps: nat, x: nat) {
    c < WRAP && x == c + WRAP * wraps
  }

  lemma {:induction false} LowIsRemainder(c: nat, wraps: nat, x: nat)
    requires Low(c, wraps, x)
    ensures c == x % WRAP
  {
  }

  /** What the comparison stands for. */
  ghost predicate WrittenUpTo(p: Ping, sent: nat, pos: nat) {
    p.chunk <= sent || (p.chunk == sent + 1 && p.end <= pos)
  }

  /** In the second half of a lap of 2^32 chunks; its last place only while the ping is still
      to be written there. */
  ghost predicate Forgetful(lap: int, d: int, behind: bool) {
    lap * WRAP + WRAP / 2 <= d < (lap + 1) * WRAP - if behind then 1 else 0
  }

  ghost predicate InForgetfulLap(d: int, behind: bool) {
    exists lap :: Forgetful(lap, d, behind)
  }

  lemma {:induction false} ForgetfulIs(d: int, behind: bool)
    ensures InForgetfulLap(d, behind) <==> d % WRAP >= WRAP / 2 && !(d % WRAP == WRAP - 1 && behind)
  {
    if lap :| Forgetful(lap, d, behind) {
      InLap(d, lap, d - lap * WRAP);
    }
    if d % WRAP >= WRAP / 2 && !(d % WRAP == WRAP - 1 && behind) {
      assert Forgetful(d / WRAP, d, behind);
    }
  }

  lemma {:induction false} InLap(d: int, lap: int, r: int)
    requires d == lap * WRAP + r && 0 <= r < WRAP
    ensures d % WRAP == r && d / WRAP == lap
  {
  }

  /** For every state of the counters, where the comparison says what it should. With the
      ping written: exactly where its distance is not forgetful. With the ping ahead: on the
      next chunk always, and else exactly where the distance is forgetful. So for all of the
      2^31 chunks on either side, and nowhere in the next 2^31 - 1 behind the ping. */
  lemma {:induction false} PingOutExact(p: Ping, sent: nat, pos: nat)
    ensures var d := sent - p.chunk;
            var right := PingOut(sent % WRAP, pos, p.chunk % WRAP, p.end) == WrittenUpTo(p, sent, pos);
            && (d >= 0 ==> (right <==> !InForgetfulLap(d, p.end <= pos)))
            && (d == -1 ==> right)
            && (d < -1 ==> (right <==> InForgetfulLap(d, p.end <= pos)))
            && (-(WRAP / 2) <= d < WRAP / 2 ==> right)
  {
    var d := sent - p.chunk;
    WrapDifference(sent, p.chunk);
    WrapNext(sent, p.chunk);
    ForgetfulIs(d, p.end <= pos);
  }

  lemma {:induction false} WrapNext(a: nat, b: nat)
    ensures (a % WRAP + 1) % WRAP == b % WRAP <==> (a - b) % WRAP == WRAP - 1
  {
    WrapDifference(a, b);
  }

  /** Behind every 2^31 chunks the ping is denied although it is out, for the next 2^31 - 1. */
  lemma {:induction false} PingForgotten(p: Ping, sent: nat, pos: nat, lap: nat)
    requires lap * WRAP + WRAP / 2 <= sent - p.chunk < (lap + 1) * WRAP - 1
    ensures WrittenUpTo(p, sent, pos) && !PingOut(sent % WRAP, pos, p.chunk % WRAP, p.end)
  {
    PingOutExact(p, sent, pos);
    assert Forgetful(lap, sent - p.chunk, p.end <= pos);
  }

  /** What is still to be written. */
  ghost function Rest(c: Chunks, pos: nat): Bytes {
    if c == [] then [] else if pos <= |c[0]| then c[0][pos..] + Joined(c[1..]) else []
  }

  lemma {:induction false} RestGrown(c: Chunks, d: Chunks, pos: nat, text: Bytes)
    requires Appended(c, d, text) && d != [] && if c == [] then pos == 0 else pos <= |c[0]|
    ensures pos <= |d[0]| && Rest(d, pos) == Rest(c, pos) + text
  {
    if c != [] {
      assert c[0] <= d[0];
      RestIsSuffix(c, pos);
      SuffixOfConcat(Joined(c), text, pos);
    }
    RestIsSuffix(d, pos);
  }

  lemma {:induction false} RestIsSuffix(c: Chunks, pos: nat)
    requires c != [] && pos <= |c[0]|
    ensures pos <= |Joined(c)| && Rest(c, pos) == Joined(c)[pos..]
  {
    SuffixOfConcat(c[0], Joined(c[1..]), pos);
  }

  lemma {:induction false} RestPart(written: Bytes, c: Chunks, pos: nat, n: nat)
    requires c != [] && pos + n <= |c[0]|
    ensures written + Rest(c, pos) == written + c[0][pos..pos + n] + Rest(c, pos + n)
  {
    var x, y, z := c[0][pos..pos + n], c[0][pos + n..], Joined(c[1..]);
    assert c[0][pos..] == x + y;
    Concat(x, y, z);
    Concat(written, x, y + z);
  }

  lemma {:induction false} RestHead(written: Bytes, c: Chunks, pos: nat)
    requires c != [] && pos <= |c[0]|
    ensures written + Rest(c, pos) == written + c[0][pos..] + Rest(c[1..], 0)
  {
    if c[1..] != [] {
      assert c[1..][0][0..] == c[1..][0];
    }
    Concat(written, c[0][pos..], Joined(c[1..]));
  }

  lemma {:induction false} FitsTail(c: Chunks)
    requires Fits(c) && c != []
    ensures Fits(c[1..])
  {
  }

  /** The client's socket: it takes any part of what it is given, from the front, with any
      status. */
  class Wire {
    const willing: bool        // takes whatever it is given, at once
    ghost var taken: Bytes

    constructor (willing: bool)
      ensures taken == [] && this.willing == willing
    {
      this.willing, taken := willing, [];
    }

    method Send(w: Bytes) returns (a: Answer)
      modifies this
      ensures a.count <= |w| && taken == old(taken) + w[..a.count]
      ensures willing ==> a == Answer(NoMoreData, |w|)
    {
      assert Answer(NoMoreData, |w|).count <= |w|;
      a :| a.count <= |w| && (willing ==> a == Answer(NoMoreData, |w|));
      taken := taken + w[..a.count];
    }
  }

  class Queue {
    var chunks: Chunks
    var sendPos: nat
    var chunksSent: nat          // 32 bits
    var pingSeq: nat             // 32 bits
    var pingEnd: nat

    ghost var sent: nat          // all chunks ever removed
    ghost var sentWraps: nat     // how often the counter has wrapped around
    ghost var seqWraps: nat
    ghost var given: Bytes       // all bytes ever appended
    ghost var written: Bytes     // all bytes the client's socket has taken
    ghost var ping: Option<Ping>

    ghost predicate InPlace()
      reads `chunks, `sendPos
    {
      Fits(chunks) && if chunks == [] then sendPos == 0 else sendPos <= |chunks[0]|
    }

    ghost predicate PingKnown()
      reads `chunks, `sendPos, `pingEnd, `sent, `written, `ping
    {
      && sendPos <= |written|
      && (ping.Some? ==> Located(ping.value, sent, |written| - sendPos, chunks) && pingEnd == ping.value.end)
    }

    /** The counters of 32 bits are what is left of the exact ones. */
    ghost predicate Counted()
      reads `chunksSent, `pingSeq, `sent, `sentWraps, `seqWraps, `ping
    {
      && Low(chunksSent, sentWraps, sent)
      && (ping.Some? ==> Low(pingSeq, seqWraps, ping.value.chunk))
    }

    ghost predicate Valid()
      reads this
    {
      InPlace() && PingKnown() && Counted() && given == written + Rest(chunks, sendPos)
    }

    constructor ()
      ensures Valid() && given == [] && ping.None?
    {
      chunks, sendPos, chunksSent, pingSeq, pingEnd := [], 0, 0, 0, 0;
      sent, sentWraps, seqWraps, given, written, ping := 0, 0, 0, [], [], None;
    }

    /** Queue a frame behind all others. */
    method Append(text: Bytes)
      requires Valid()
      modifies `chunks, `given
      ensures Valid() && given == old(given) + text && chunks != [] && (text != [] ==> chunks[|chunks| - 1] != [])
    {
      ghost var before, rest := chunks, Rest(chunks, sendPos);
      chunks := WriteChunk(chunks, text);
      RestGrown(before, chunks, sendPos, text);
      if ping.Some? {
        LocatedGrown(ping.value, sent, |written| - sendPos, before, chunks);
      }
      Concat(written, rest, text);
      given := given + text;
    }

    /** Queue a ping and remember where it ends. */
    method SendPing()
      requires Valid()
      modifies `chunks, `given, `pingSeq, `pingEnd, `ping, `seqWraps
      ensures Valid() && given == old(given) + [0x89, 0]
      ensures ping.Some? && ping.value.offset == |given|
    {
      Append([0x89, 0]);
      MarkPing();
    }

    method MarkPing()
      requires Valid() && chunks != [] && chunks[|chunks| - 1] != []
      modifies `pingSeq, `pingEnd, `ping, `seqWraps
      ensures Valid() && ping == Some(Ping(sent + |chunks|, |chunks[|chunks| - 1]|, |given|))
    {
      SetSeq();
      PlacePing();
    }

    method PlacePing()
      requires InPlace() && sendPos <= |written| && |given| == |written| + |Rest(chunks, sendPos)|
      requires chunks != [] && chunks[|chunks| - 1] != []
      modifies `pingEnd, `ping
      ensures PingKnown() && ping == Some(Ping(sent + |chunks|, |chunks[|chunks| - 1]|, |given|))
    {
      PingPlaced(chunks, sent, |written| - sendPos);
      RestIsSuffix(chunks, sendPos);
      pingEnd := |chunks[|chunks| - 1]|;
      ping := Some(Ping(sent + |chunks|, pingEnd, |given|));
    }

    method SetSeq()
      requires Low(chunksSent, sentWraps, sent)
      modifies `pingSeq, `seqWraps
      ensures Low(pingSeq, seqWraps, sent + |chunks|)
    {
      pingSeq := U32(chunksSent + |chunks|);
      seqWraps := sentWraps + (chunksSent + |chunks|) / WRAP;
    }

    /** The next send: a whole chunk, or a part of it. Exactly what the socket has taken
        counts as written; anything but a normal answer closes the connection. */
    method SendHead(client: Wire) returns (goOn: bool, closed: bool, ghost a: Answer)
      requires Valid() && chunks != []
      modifies `chunks, `sendPos, `chunksSent, `sent, `sentWraps, `written, client
      ensures !closed ==> Valid()
      ensures a.count <= |old(chunks)[0]| - old(sendPos) && written <= given
      ensures var x := old(chunks)[0][old(sendPos)..old(sendPos) + a.count];
              written == old(written) + x && client.taken == old(client.taken) + x
      ensures closed <==> !a.status.NoMoreData?
      ensures goOn <==> a.status.NoMoreData? && a.count == |old(chunks)[0]| - old(sendPos)
      ensures client.willing ==> goOn
      ensures chunks == if a.count == |old(chunks)[0]| - old(sendPos) then old(chunks)[1..] else old(chunks)
    {
      var toSend := |chunks[0]| - sendPos;
      var r := client.Send(chunks[0][sendPos..]);
      a := r;
      assert chunks[0][sendPos..][..r.count] == chunks[0][sendPos..sendPos + r.count];
      closed := !r.status.NoMoreData?;
      goOn := r.count == toSend && !closed;
      if r.count == toSend {
        RemoveHead();
      } else {
        Partly(r.count, !closed);
      }
    }

    method CountOne()
      requires Low(chunksSent, sentWraps, sent)
      modifies `chunksSent, `sent, `sentWraps
      ensures Low(chunksSent, sentWraps, sent) && sent == old(sent) + 1
    {
      sentWraps := sentWraps + (chunksSent + 1) / WRAP;
      chunksSent := U32(chunksSent + 1);
      sent := sent + 1;
    }

    method DropHead()
      requires InPlace() && chunks != [] && sendPos <= |written| && given == written + Rest(chunks, sendPos)
      modifies `chunks, `sendPos, `written
      ensures InPlace() && given == written + Rest(chunks, sendPos) && chunks == old(chunks)[1..] && sendPos == 0
      ensures written == old(written) + old(chunks)[0][old(sendPos)..]
      ensures |written| == |old(written)| - old(sendPos) + |old(chunks)[0]|
    {
      RestHead(written, chunks, sendPos);
      FitsTail(chunks);
      written := written + chunks[0][sendPos..];
      sendPos := 0;
      chunks := chunks[1..];
    }

    /** The same, with the place of the ping one chunk nearer. */
    method PassHead()
      requires InPlace() && PingKnown() && chunks != [] && given == written + Rest(chunks, sendPos)
      modifies `chunks, `sendPos, `written
      ensures InPlace() && given == written + Rest(chunks, sendPos) && chunks == old(chunks)[1..] && sendPos == 0
      ensures written == old(written) + old(chunks)[0][old(sendPos)..]
      ensures ping.Some? ==> Located(ping.value, sent + 1, |written|, chunks) && pingEnd == ping.value.end
    {
      if ping.Some? {
        LocatedShift(ping.value, sent, |written| - sendPos, chunks);
      }
      DropHead();
    }

    /** A chunk that is out is removed. */
    method RemoveHead()
      requires Valid() && chunks != []
      modifies `chunks, `sendPos, `chunksSent, `sent, `sentWraps, `written
      ensures Valid() && chunks == old(chunks)[1..] && sendPos == 0 && sent == old(sent) + 1
      ensures written == old(written) + old(chunks)[0][old(sendPos)..]
    {
      PassHead();
      CountOne();
    }

    /** Part of the chunk is out; the position moves on unless the connection is to be closed. */
    method Partly(count: nat, keep: bool)
      requires Valid() && chunks != [] && count < |chunks[0]| - sendPos
      modifies `sendPos, `written
      ensures keep ==> Valid()
      ensures written == old(written) + chunks[0][old(sendPos)..old(sendPos) + count] && written <= given
    {
      RestPart(written, chunks, sendPos, count);
      written := written + chunks[0][sendPos..sendPos + count];
      if keep {
        sendPos := sendPos + count;
      }
    }

    /** The socket is writable: send chunks until it takes no more. */
    method OnWritable(client: Wire) returns (closed: bool)
      requires Valid()
      modifies `chunks, `sendPos, `chunksSent, `sent, `sentWraps, `written, client
      ensures !closed ==> Valid()
      ensures old(written) <= written <= given
      ensures client.taken == old(client.taken) + written[|old(written)|..]
      ensures client.willing ==> !closed && chunks == []
    {
      var goOn := true;
      closed := false;
      assert written[|written|..] == [];
      while goOn && chunks != []
        invariant !closed ==> Valid()
        invariant goOn ==> !closed
        invariant client.willing ==> goOn
        invariant old(written) <= written <= given
        invariant client.taken == old(client.taken) + written[|old(written)|..]
        decreases goOn, |chunks|
      {
        ghost var w, t := written, client.taken;
        ghost var a;
        goOn, closed, a := SendHead(client);
        TakenOn(old(written), w, written, old(client.taken), t, client.taken);
      }
    }

    static lemma TakenOn(w0: Bytes, w1: Bytes, w2: Bytes, t0: Bytes, t1: Bytes, t2: Bytes)
      requires w0 <= w1 <= w2 && t1 == t0 + w1[|w0|..] && t2 == t1 + w2[|w1|..]
      ensures t2 == t0 + w2[|w0|..]
    {
      assert w2[|w0|..] == w1[|w0|..] + w2[|w1|..];
      Concat(t0, w1[|w0|..], w2[|w1|..]);
    }

    /** Has the ping left? Exactly when all bytes up to its end have been written. */
    method IsPingOut() returns (r: bool)
      requires Valid()
      ensures r == PingOut(chunksSent, sendPos, pingSeq, pingEnd)
      ensures ping.Some? && -(WRAP / 2) <= sent - ping.value.chunk < WRAP / 2 ==>
                (r <==> ping.value.offset <= |written|)
      ensures ping.Some? && sent >= ping.value.chunk ==>
                (r <==> !InForgetfulLap(sent - ping.value.chunk, ping.value.end <= sendPos)) && ping.value.offset <= |written|
    {
      r := PingOut(chunksSent, sendPos, pingSeq, pingEnd);
      if ping.Some? {
        LowIsRemainder(chunksSent, sentWraps, sent);
        LowIsRemainder(pingSeq, seqWraps, ping.value.chunk);
        PingOutExact(ping.value, sent, sendPos);
        LocatedOut(ping.value, sent, |written| - sendPos, chunks, sendPos);
      }
    }
  }

  /** A ping just appended ends where the queue ends. */
  lemma {:induction false} PingPlaced(c: Chunks, sent: nat, gone: nat)
    requires c != [] && c[|c| - 1] != []
    ensures Located(Ping(sent + |c|, |c[|c| - 1]|, gone + |Joined(c)|), sent, gone, c)
    decreases |c|
  {
    if |c| == 1 {
      JoinedOne(c[0]);
      assert c == [c[0]];
    } else {
      PingPlaced(c[1..], sent + 1, gone + |c[0]|);
    }
  }
}
