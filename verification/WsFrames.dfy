/** Reassembly of fragmented websocket messages from complete frames, on an address
    without a stream handler (section 5.4 of RFC 6455). */
module WsFrames {
  import opened Bytes
  import opened Sequences

  const MAX_FRAGMENTS: nat := 1024
  const MAX_CONTROL: nat := 125

  datatype Opcode = Text | Binary | Continue | Close | Ping | Pong | Reserved

  /** A complete frame with its payload unmasked. */
  datatype Frame = Frame(fin: bool, opcode: Opcode, payload: Bytes)

  datatype Message = Message(binary: bool, data: Bytes)

  /** Why a connection is closed; the close frame carries the status, if there is one. */
  datatype Fate = Alive | Asked | Plain | Protocol | NotUtf8 | TooBig

  datatype Config = Config(max: nat, utf8: Bytes -> bool)

  /** The message that is coming in: its opcode, the fragments kept, the sum of their
      lengths and the number of frames. */
  datatype Open = Idle | Open(opcode: Opcode, fragments: seq<Bytes>, length: nat, count: nat)

  datatype State = State(open: Open, inbox: seq<Message>, pongs: seq<Bytes>, fate: Fate)

  const INITIAL := State(Idle, [], [], Alive)

  predicate IsControl(op: Opcode) {
    op.Close? || op.Ping? || op.Pong?
  }

  /** A whole message arrives in one frame. */
  function Whole(cfg: Config, s: State, f: Frame): State {
    if f.opcode.Text? && |f.payload| >= cfg.max then s.(fate := Plain)
    else if f.opcode.Text? && !cfg.utf8(f.payload) then s.(fate := NotUtf8)
    else s.(inbox := s.inbox + [Message(f.opcode.Binary?, f.payload)])
  }

  function Begin(cfg: Config, s: State, f: Frame): State {
    if |f.payload| >= cfg.max then s.(fate := TooBig)
    else s.(open := Open(f.opcode, [f.payload], |f.payload|, 1))
  }

  /** The fragments are put together. */
  function Finish(cfg: Config, s: State): State
    requires s.open.Open?
  {
    var data := Joined(s.open.fragments);
    if s.open.opcode.Text? && !cfg.utf8(data) then s.(open := Idle, fate := NotUtf8)
    else s.(open := Idle, inbox := s.inbox + [Message(s.open.opcode.Binary?, data)])
  }

  /** Nothing is kept of an empty fragment but its count. */
  function Kept(o: Open, payload: Bytes): Open
    requires o.Open?
  {
    if payload == [] then o
    else o.(fragments := o.fragments + [payload], length := o.length + |payload|)
  }

  function Follow(cfg: Config, s: State, f: Frame): State
    requires s.open.Open?
  {
    if |f.payload| >= cfg.max - s.open.length then s.(fate := TooBig)
    else
      var t := s.(open := s.open.(count := s.open.count + 1));
      if t.open.count > MAX_FRAGMENTS then t.(fate := TooBig)
      else
        var u := t.(open := Kept(t.open, f.payload));
        if f.fin then Finish(cfg, u) else u
  }

  function Step(cfg: Config, s: State, f: Frame): State {
    if !s.fate.Alive? then s
    else if |f.payload| > cfg.max then s.(fate := TooBig)
    else if IsControl(f.opcode) then
      if !f.fin || |f.payload| > MAX_CONTROL then s.(fate := Protocol)
      else if f.opcode.Close? then s.(fate := Asked)
      else if f.opcode.Ping? then s.(pongs := s.pongs + [f.payload])
      else s
    else
      match f.opcode
      case Reserved => s.(fate := Protocol)
      case Continue => if s.open.Idle? then s.(fate := Protocol) else Follow(cfg, s, f)
      case _ =>
        if s.open.Open? then s.(fate := Protocol)
        else if f.fin then Whole(cfg, s, f)
        else Begin(cfg, s, f)
  }

  function Run(cfg: Config, frames: seq<Frame>): State {
    if frames == [] then INITIAL
    else Step(cfg, Run(cfg, frames[..|frames| - 1]), frames[|frames| - 1])
  }

  // ----- the sender's view -----

  /** A message as its sender cuts it up: one frame for each piece. */
  datatype Send = Send(opcode: Opcode, pieces: seq<Bytes>)

  /** The frames that begin a message and do not end it. */
  function Begun(o: Send): seq<Frame>
    decreases |o.pieces|
  {
    if o.pieces == [] then []
    else
      var n := |o.pieces| - 1;
      Begun(Send(o.opcode, o.pieces[..n])) + [Frame(false, if n == 0 then o.opcode else Continue, o.pieces[n])]
  }

  /** The frames of a whole message. */
  function Frames(o: Send): seq<Frame>
    requires o.pieces != []
  {
    var n := |o.pieces| - 1;
    Begun(Send(o.opcode, o.pieces[..n])) + [Frame(true, if n == 0 then o.opcode else Continue, o.pieces[n])]
  }

  ghost predicate Sendable(sends: seq<Send>) {
    forall i :: 0 <= i < |sends| ==> sends[i].pieces != []
  }

  function AllFrames(sends: seq<Send>): seq<Frame>
    requires Sendable(sends)
  {
    if sends == [] then [] else AllFrames(sends[..|sends| - 1]) + Frames(sends[|sends| - 1])
  }

  function MessageOf(o: Send): Message {
    Message(o.opcode.Binary?, Joined(o.pieces))
  }

  function Messages(sends: seq<Send>): seq<Message> {
    if sends == [] then [] else Messages(sends[..|sends| - 1]) + [MessageOf(sends[|sends| - 1])]
  }

  /** What is put between the fragments of a message: pings and pongs. */
  ghost predicate Between(f: Frame, cfg: Config) {
    (f.opcode.Ping? || f.opcode.Pong?) && f.fin && |f.payload| <= 125 && |f.payload| <= cfg.max
  }

  /** The frames that are part of messages. */
  function DataFrames(frames: seq<Frame>): seq<Frame> {
    if frames == [] then []
    else
      var f := frames[|frames| - 1];
      DataFrames(frames[..|frames| - 1]) + if IsControl(f.opcode) then [] else [f]
  }

  ghost function Answers(frames: seq<Frame>): seq<Bytes> {
    if frames == [] then []
    else
      var f := frames[|frames| - 1];
      Answers(frames[..|frames| - 1]) + if f.opcode.Ping? then [f.payload] else []
  }

  /** A message within the limits, up to the last of the pieces there are. */
  ghost predicate Within(cfg: Config, o: Send) {
    (o.opcode.Text? || o.opcode.Binary?) && |Joined(o.pieces)| < cfg.max && |o.pieces| <= 1024
  }

  /** A whole message that is accepted. In one frame, a binary one may be as large as the
      limit, everything else has to be smaller. */
  ghost predicate Acceptable(cfg: Config, o: Send) {
    && o.pieces != [] && (o.opcode.Text? ==> cfg.utf8(Joined(o.pieces)))
    && (Within(cfg, o) || (o.opcode.Binary? && |o.pieces| == 1 && |Joined(o.pieces)| <= cfg.max))
  }

  ghost predicate AllAcceptable(cfg: Config, sends: seq<Send>) {
    forall i :: 0 <= i < |sends| ==> Acceptable(cfg, sends[i])
  }

  /** The state after the messages `sends` and the pieces of `o`. */
  ghost predicate Reached(cfg: Config, s: State, sends: seq<Send>, o: Send) {
    && s.fate.Alive? && s.inbox == Messages(sends)
    && if o.pieces == [] then s.open.Idle?
       else
         && s.open.Open? && Within(cfg, o) && s.open.opcode == o.opcode && s.open.count == |o.pieces|
         && Joined(s.open.fragments) == Joined(o.pieces) && s.open.length == |Joined(o.pieces)|
  }

  function More(o: Send, p: Bytes): Send {
    Send(o.opcode, o.pieces + [p])
  }

  function PieceFrame(o: Send, fin: bool, p: Bytes): Frame {
    Frame(fin, if o.pieces == [] then o.opcode else Continue, p)
  }

  lemma {:induction false} JoinedMore(pieces: seq<Bytes>, p: Bytes)
    ensures Joined(pieces + [p]) == Joined(pieces) + p
  {
    JoinedConcat(pieces, [p]);
    JoinedOne(p);
  }

  lemma {:induction false} MessagesMore(sends: seq<Send>, o: Send)
    ensures Messages(sends + [o]) == Messages(sends) + [MessageOf(o)]
  {
    assert (sends + [o])[..|sends|] == sends;
  }

  /** The first piece of a message: accepted exactly when it is within the limits. */
  lemma {:induction false} StepFirst(cfg: Config, s: State, sends: seq<Send>, o: Send, fin: bool, p: Bytes)
    requires Reached(cfg, s, sends, o) && o.pieces == [] && (o.opcode.Text? || o.opcode.Binary?)
    ensures var t := Step(cfg, s, Frame(fin, o.opcode, p));
            && (t.fate.Alive? <==> if fin then Acceptable(cfg, More(o, p)) else Within(cfg, More(o, p)))
            && (t.fate.Alive? && fin ==> Reached(cfg, t, sends + [More(o, p)], Send(o.opcode, [])))
            && (t.fate.Alive? && !fin ==> Reached(cfg, t, sends, More(o, p)))
  {
    assert More(o, p).pieces == [p];
    JoinedOne(p);
    MessagesMore(sends, More(o, p));
  }

  /** A further piece, likewise. */
  lemma {:induction false} StepNext(cfg: Config, s: State, sends: seq<Send>, o: Send, fin: bool, p: Bytes)
    requires Reached(cfg, s, sends, o) && o.pieces != []
    ensures var t := Step(cfg, s, Frame(fin, Continue, p));
            && (t.fate.Alive? <==> if fin then Acceptable(cfg, More(o, p)) else Within(cfg, More(o, p)))
            && (t.fate.Alive? && fin ==> Reached(cfg, t, sends + [More(o, p)], Send(o.opcode, [])))
            && (t.fate.Alive? && !fin ==> Reached(cfg, t, sends, More(o, p)))
  {
    JoinedMore(o.pieces, p);
    JoinedMore(s.open.fragments, p);
    assert p == [] ==> Joined(o.pieces) + p == Joined(o.pieces);
    MessagesMore(sends, More(o, p));
  }

  /** How the messages of a sequence of frames were cut up: the whole ones, and the one
      that is coming in. */
  datatype Account = Account(sends: seq<Send>, open: Send)

  ghost function Told(frames: seq<Frame>): Account {
    if frames == [] then Account([], Send(Text, []))
    else
      var a, f := Told(frames[..|frames| - 1]), frames[|frames| - 1];
      if IsControl(f.opcode) then a else Extended(a, f)
  }

  /** The message a data frame belongs to, without that frame. */
  ghost function Target(a: Account, f: Frame): Send {
    if f.opcode.Continue? then a.open else Send(f.opcode, [])
  }

  ghost function Extended(a: Account, f: Frame): Account {
    var o := More(Target(a, f), f.payload);
    if f.fin then Account(a.sends + [o], Send(o.opcode, [])) else Account(a.sends, o)
  }

  ghost predicate Sane(cfg: Config, a: Account) {
    AllAcceptable(cfg, a.sends) && Sendable(a.sends) && (a.open.pieces == [] || Within(cfg, a.open))
  }

  ghost predicate Explains(cfg: Config, frames: seq<Frame>, a: Account) {
    Sane(cfg, a) && DataFrames(frames) == AllFrames(a.sends) + Begun(a.open)
  }

  ghost predicate AllBetween(cfg: Config, frames: seq<Frame>) {
    forall i :: 0 <= i < |frames| && IsControl(frames[i].opcode) ==> Between(frames[i], cfg)
  }

  lemma {:induction false} BegunMore(o: Send, p: Bytes)
    ensures Begun(More(o, p)) == Begun(o) + [PieceFrame(o, false, p)]
    ensures Frames(More(o, p)) == Begun(o) + [PieceFrame(o, true, p)]
  {
    assert More(o, p).pieces[..|o.pieces|] == o.pieces;
  }

  lemma {:induction false} AllFramesMore(sends: seq<Send>, o: Send)
    requires Sendable(sends) && o.pieces != []
    ensures Sendable(sends + [o]) && AllFrames(sends + [o]) == AllFrames(sends) + Frames(o)
  {
    assert (sends + [o])[..|sends|] == sends;
  }

  /** A data frame fits: it starts a message when none is open, or continues the open one. */
  ghost predicate InTurn(a: Account, f: Frame) {
    if f.opcode.Continue? then a.open.pieces != [] else a.open.pieces == [] && (f.opcode.Text? || f.opcode.Binary?)
  }

  /** A data frame is accepted exactly when it is in turn and what it makes of its
      message is within the limits. */
  lemma {:induction false} StepData(cfg: Config, s: State, a: Account, f: Frame)
    requires Reached(cfg, s, a.sends, a.open) && !IsControl(f.opcode)
    ensures var o := More(Target(a, f), f.payload);
            Step(cfg, s, f).fate.Alive? <==> InTurn(a, f) && if f.fin then Acceptable(cfg, o) else Within(cfg, o)
    ensures Step(cfg, s, f).fate.Alive? ==> Reached(cfg, Step(cfg, s, f), Extended(a, f).sends, Extended(a, f).open)
  {
    if InTurn(a, f) {
      if f.opcode.Continue? {
        StepNext(cfg, s, a.sends, a.open, f.fin, f.payload);
      } else {
        StepFirst(cfg, s, a.sends, Send(f.opcode, []), f.fin, f.payload);
      }
    }
  }

  /** Why a frame ends the connection: it is too big, by itself or with what came before it;
      it is out of turn or no proper control frame; it asks for the end; it is a text that is
      no UTF-8; or a text in one frame that just reaches the limit. */
  ghost predicate Faulted(cfg: Config, a: Account, f: Frame, fate: Fate) {
    var o := More(Target(a, f), f.payload);
    var data := !IsControl(f.opcode) && InTurn(a, f);
    var alone := f.fin && |o.pieces| == 1;
    var large := |Joined(o.pieces)| >= cfg.max || |o.pieces| > 1024;
    && (fate.TooBig? <==> |f.payload| > cfg.max || (data && !alone && large))
    && (fate.Protocol? <==> |f.payload| <= cfg.max && !data && (IsControl(f.opcode) ==> !f.fin || |f.payload| > 125))
    && (fate.Asked? <==> f.opcode.Close? && f.fin && |f.payload| <= 125 && |f.payload| <= cfg.max)
    && (fate.NotUtf8? <==> data && f.fin && !large && o.opcode.Text? && !cfg.utf8(Joined(o.pieces)))
    && (fate.Plain? <==> data && alone && f.opcode.Text? && |f.payload| == cfg.max)
  }

  lemma {:induction false} FirstFaulted(cfg: Config, s: State, a: Account, f: Frame)
    requires Reached(cfg, s, a.sends, a.open) && (f.opcode.Text? || f.opcode.Binary?) && a.open.pieces == []
    ensures Faulted(cfg, a, f, Step(cfg, s, f).fate)
  {
    JoinedOne(f.payload);
    assert More(Target(a, f), f.payload).pieces == [f.payload];
  }

  lemma {:induction false} NextFaulted(cfg: Config, s: State, a: Account, f: Frame)
    requires Reached(cfg, s, a.sends, a.open) && f.opcode.Continue? && a.open.pieces != []
    ensures Faulted(cfg, a, f, Step(cfg, s, f).fate)
  {
    JoinedMore(a.open.pieces, f.payload);
    JoinedMore(s.open.fragments, f.payload);
    assert f.payload == [] ==> Joined(a.open.pieces) + f.payload == Joined(a.open.pieces);
  }

  lemma {:induction false} FaultNamed(cfg: Config, s: State, a: Account, f: Frame)
    requires Reached(cfg, s, a.sends, a.open)
    ensures Faulted(cfg, a, f, Step(cfg, s, f).fate)
  {
    if !IsControl(f.opcode) && InTurn(a, f) {
      if f.opcode.Continue? {
        NextFaulted(cfg, s, a, f);
      } else {
        FirstFaulted(cfg, s, a, f);
      }
    }
  }

  lemma {:induction false} SaneExtended(cfg: Config, a: Account, f: Frame)
    requires Sane(cfg, a)
    requires var o := More(Target(a, f), f.payload); if f.fin then Acceptable(cfg, o) else Within(cfg, o)
    ensures Sane(cfg, Extended(a, f))
  {
  }

  /** Accounts and frames grow together. */
  lemma {:induction false} FramesExtended(a: Account, f: Frame)
    requires Sendable(a.sends) && InTurn(a, f)
    ensures Sendable(Extended(a, f).sends)
    ensures AllFrames(Extended(a, f).sends) + Begun(Extended(a, f).open) == AllFrames(a.sends) + Begun(a.open) + [f]
  {
    var o, x := Target(a, f), AllFrames(a.sends);
    BegunMore(o, f.payload);
    assert Begun(o) == Begun(a.open) && f == PieceFrame(o, f.fin, f.payload);
    Concat(x, Begun(o), [f]);
    if f.fin {
      AllFramesMore(a.sends, More(o, f.payload));
      assert Extended(a, f).open.pieces == [] && x + (Begun(o) + [f]) + [] == x + (Begun(o) + [f]);
    }
  }

  /** Soundness: while the connection is alive, the data frames are messages cut into
      acceptable pieces, and exactly those messages have been delivered. */
  lemma {:induction false} Sound(cfg: Config, frames: seq<Frame>)
    requires Run(cfg, frames).fate.Alive?
    ensures Explains(cfg, frames, Told(frames))
    ensures Reached(cfg, Run(cfg, frames), Told(frames).sends, Told(frames).open)
  {
    if frames != [] {
      var before, f := frames[..|frames| - 1], frames[|frames| - 1];
      Sound(cfg, before);
      if IsControl(f.opcode) {
        StepControl(cfg, Run(cfg, before), f);
        assert DataFrames(frames) == DataFrames(before);
      } else {
        StepData(cfg, Run(cfg, before), Told(before), f);
        SaneExtended(cfg, Told(before), f);
        FramesExtended(Told(before), f);
      }
    }
  }

  /** In any run the frame that ends the connection ends it for what it is. */
  lemma {:induction false} RunFaulted(cfg: Config, frames: seq<Frame>, f: Frame)
    requires Run(cfg, frames).fate.Alive?
    ensures Faulted(cfg, Told(frames), f, Run(cfg, frames + [f]).fate)
  {
    Sound(cfg, frames);
    assert (frames + [f])[..|frames|] == frames;
    FaultNamed(cfg, Run(cfg, frames), Told(frames), f);
  }

  /** What came between them were pings and pongs, and every ping has been answered with
      its own payload. */
  lemma {:induction false} ControlsAnswered(cfg: Config, frames: seq<Frame>)
    requires Run(cfg, frames).fate.Alive?
    ensures AllBetween(cfg, frames) && Run(cfg, frames).pongs == Answers(frames)
  {
    if frames != [] {
      var before, f := frames[..|frames| - 1], frames[|frames| - 1];
      ControlsAnswered(cfg, before);
      assert forall i :: 0 <= i < |before| ==> frames[i] == before[i];
      if IsControl(f.opcode) {
        StepControl(cfg, Run(cfg, before), f);
      } else {
        StepKeepsPongs(cfg, Run(cfg, before), f);
      }
    }
  }

  lemma {:induction false} StepKeepsPongs(cfg: Config, s: State, f: Frame)
    requires !IsControl(f.opcode)
    ensures Step(cfg, s, f).pongs == s.pongs
  {
  }

  /** A control frame is taken exactly when it is a ping or pong that may stand between
      fragments, and leaves the message alone. */
  lemma {:induction false} StepControl(cfg: Config, s: State, f: Frame)
    requires s.fate.Alive? && IsControl(f.opcode)
    ensures Step(cfg, s, f).fate.Alive? <==> Between(f, cfg)
    ensures Between(f, cfg) ==> Step(cfg, s, f) == s.(pongs := s.pongs + if f.opcode.Ping? then [f.payload] else [])
  {
    assert s.pongs + [] == s.pongs;
  }

  /** The last data frame of an account, and the account without it. */
  ghost function LastFrame(a: Account): Frame
    requires Sendable(a.sends) && (a.sends != [] || a.open.pieces != [])
  {
    var o := if a.open.pieces != [] then a.open else a.sends[|a.sends| - 1];
    var n := |o.pieces| - 1;
    Frame(a.open.pieces == [], if n == 0 then o.opcode else Continue, o.pieces[n])
  }

  ghost function Shortened(a: Account): Account
    requires Sendable(a.sends) && (a.sends != [] || a.open.pieces != [])
  {
    if a.open.pieces != [] then Account(a.sends, Send(a.open.opcode, a.open.pieces[..|a.open.pieces| - 1]))
    else
      var m := |a.sends| - 1;
      Account(a.sends[..m], Send(a.sends[m].opcode, a.sends[m].pieces[..|a.sends[m].pieces| - 1]))
  }

  lemma {:induction false} JoinedPrefix(pieces: seq<Bytes>)
    requires pieces != []
    ensures |Joined(pieces[..|pieces| - 1])| <= |Joined(pieces)|
  {
    var n := |pieces| - 1;
    assert pieces == pieces[..n] + [pieces[n]];
    JoinedMore(pieces[..n], pieces[n]);
  }

  /** Taking the last data frame away leaves a sane account, which it extends again. */
  lemma {:induction false} ShortenedSane(cfg: Config, a: Account)
    requires Sane(cfg, a) && (a.sends != [] || a.open.pieces != [])
    ensures Sane(cfg, Shortened(a)) && InTurn(Shortened(a), LastFrame(a))
    ensures var o := More(Target(Shortened(a), LastFrame(a)), LastFrame(a).payload);
            && o == (if a.open.pieces != [] then a.open else a.sends[|a.sends| - 1])
            && (if LastFrame(a).fin then Acceptable(cfg, o) else Within(cfg, o))
  {
    var o := if a.open.pieces != [] then a.open else a.sends[|a.sends| - 1];
    assert a.open.pieces == [] ==> Acceptable(cfg, o);
    JoinedPrefix(o.pieces);
    if |o.pieces| == 1 {
      assert o.pieces[..0] == [];
    }
    assert o.pieces == o.pieces[..|o.pieces| - 1] + [o.pieces[|o.pieces| - 1]];
  }

  /** The two undo each other. */
  lemma {:induction false} ExtendedShortened(cfg: Config, a: Account)
    requires Sane(cfg, a) && (a.sends != [] || a.open.pieces != [])
    ensures Extended(Shortened(a), LastFrame(a)).sends == a.sends
    ensures Extended(Shortened(a), LastFrame(a)).open.pieces == a.open.pieces
    ensures a.open.pieces != [] ==> Extended(Shortened(a), LastFrame(a)).open == a.open
  {
    ShortenedSane(cfg, a);
    var o := More(Target(Shortened(a), LastFrame(a)), LastFrame(a).payload);
    if a.open.pieces == [] {
      LastSend(a.sends);
      assert Extended(Shortened(a), LastFrame(a)) == Account(a.sends[..|a.sends| - 1] + [o], Send(o.opcode, []));
    } else {
      assert Extended(Shortened(a), LastFrame(a)) == Account(a.sends, o);
    }
  }

  lemma {:induction false} LastSend(sends: seq<Send>)
    requires sends != []
    ensures sends[..|sends| - 1] + [sends[|sends| - 1]] == sends
  {
  }

  lemma {:induction false} FramesShortened(cfg: Config, a: Account)
    requires Sane(cfg, a) && (a.sends != [] || a.open.pieces != [])
    ensures Sendable(Shortened(a).sends)
    ensures AllFrames(a.sends) + Begun(a.open)
            == AllFrames(Shortened(a).sends) + Begun(Shortened(a).open) + [LastFrame(a)]
  {
    ShortenedSane(cfg, a);
    ExtendedShortened(cfg, a);
    FramesExtended(Shortened(a), LastFrame(a));
    assert Begun(Extended(Shortened(a), LastFrame(a)).open) == Begun(a.open);
  }

  /** Completeness: messages cut into acceptable pieces in whatever way, with pings and
      pongs anywhere between them, are all taken, and exactly those messages are delivered. */
  lemma {:induction false} Complete(cfg: Config, frames: seq<Frame>, a: Account)
    requires Explains(cfg, frames, a) && AllBetween(cfg, frames)
    ensures Reached(cfg, Run(cfg, frames), a.sends, a.open)
    decreases |frames|, 0
  {
    if a.sends != [] || a.open.pieces != [] {
      FramesShortened(cfg, a);
    }
    if frames != [] {
      var before, f := frames[..|frames| - 1], frames[|frames| - 1];
      assert forall i :: 0 <= i < |before| ==> frames[i] == before[i];
      if IsControl(f.opcode) {
        assert DataFrames(before) == DataFrames(frames);
        Complete(cfg, before, a);
        StepControl(cfg, Run(cfg, before), f);
      } else {
        CompleteStep(cfg, before, f, a);
      }
    }
  }

  lemma {:induction false} CompleteStep(cfg: Config, before: seq<Frame>, f: Frame, a: Account)
    requires Sane(cfg, a) && AllBetween(cfg, before) && !IsControl(f.opcode)
    requires DataFrames(before) + [f] == AllFrames(a.sends) + Begun(a.open)
    ensures Reached(cfg, Step(cfg, Run(cfg, before), f), a.sends, a.open)
    decreases |before|, 1
  {
    assert a.sends != [] || a.open.pieces != [];
    var x := AllFrames(Shortened(a).sends) + Begun(Shortened(a).open);
    FramesShortened(cfg, a);
    LastCancels(DataFrames(before), f, x, LastFrame(a));
    ShortenedSane(cfg, a);
    ExtendedShortened(cfg, a);
    Complete(cfg, before, Shortened(a));
    StepData(cfg, Run(cfg, before), Shortened(a), f);
  }

  /** So a sequence of frames is accepted exactly when it is such a sequence of messages. */
  lemma {:induction false} AcceptedIff(cfg: Config, frames: seq<Frame>)
    ensures Run(cfg, frames).fate.Alive? <==> AllBetween(cfg, frames) && exists a :: Explains(cfg, frames, a)
  {
    if Run(cfg, frames).fate.Alive? {
      Sound(cfg, frames);
      ControlsAnswered(cfg, frames);
    } else if AllBetween(cfg, frames) {
      forall a | Explains(cfg, frames, a) ensures false {
        Complete(cfg, frames, a);
      }
    }
  }

  // ----- the bound on what is stored -----

  /** What is stored is what was kept, below the limit, and with few frames. */
  ghost predicate Bounded(cfg: Config, s: State) {
    s.open.Open? && s.fate.Alive? ==>
      && s.open.length == |Joined(s.open.fragments)| < cfg.max
      && |s.open.fragments| <= s.open.count <= MAX_FRAGMENTS
  }

  lemma {:induction false} StepBounded(cfg: Config, s: State, f: Frame)
    requires Bounded(cfg, s)
    ensures Bounded(cfg, Step(cfg, s, f))
  {
    JoinedOne(f.payload);
    if s.open.Open? {
      JoinedMore(s.open.fragments, f.payload);
    }
  }

  /** Whatever a client sends, a message that never ends stays below the limit. */
  lemma {:induction false} RunBounded(cfg: Config, frames: seq<Frame>)
    ensures Bounded(cfg, Run(cfg, frames))
  {
    if frames != [] {
      RunBounded(cfg, frames[..|frames| - 1]);
      StepBounded(cfg, Run(cfg, frames[..|frames| - 1]), frames[|frames| - 1]);
    }
  }
}
