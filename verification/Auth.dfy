/** Mutual authentication over one bidirectional QUIC stream: four 65-byte frames that prove
    knowledge of the shared key, bound to the TLS exporter value. The MAC is any function of label
    and nonces (key and exporter are the same on both sides); the stream is a pair of FIFO byte
    pipes whose writes and reads may be cut anywhere. */
module Auth {
  import opened Core

  const REQUEST: Byte := 1
  const RESPONSE: Byte := 2
  const CONFIRM: Byte := 3
  const COMPLETE: Byte := 4
  const FRAME_LEN: nat := 65

  type Nonce = n: Bytes | |n| == 16 witness seq(16, _ => 0)
  type Tag = t: Bytes | |t| == 32 witness seq(32, _ => 0)

  function EmptyNonce(): Nonce {
    seq(16, _ => 0)
  }

  datatype Purpose = ForClient | ForServer | ForConfirm | ForComplete

  type Mac = (Purpose, Nonce, Nonce) -> Tag

  function Frame(mac: Mac, kind: Byte, purpose: Purpose, client: Nonce, server: Nonce): (r: Bytes)
    ensures |r| == FRAME_LEN
  {
    [kind] + client + server + mac(purpose, client, server)
  }

  lemma {:induction false} FrameFields(mac: Mac, kind: Byte, purpose: Purpose, client: Nonce, server: Nonce)
    ensures var f := Frame(mac, kind, purpose, client, server);
      f[0] == kind && f[1..17] == client && f[17..33] == server && f[33..] == mac(purpose, client, server)
  {
  }

  datatype Role = Client | Server

  /** `AuthState` of one side, with `lost` for the connection-lost flag. */
  datatype Peer = Peer(
    stream: bool,
    clientNonce: Option<Nonce>,
    serverNonce: Option<Nonce>,
    receive: Bytes,
    transmit: seq<Bytes>,
    offset: nat,
    authenticated: bool,
    afterFlush: bool,
    lost: bool)

  const FRESH := Peer(false, None, None, [], [], 0, false, false, false)

  datatype Outcome = Done | Blocked | Failed

  /** `flush_auth_stream` when the stream accepts `n` more bytes before it blocks: the new state, the
      bytes written and the outcome. */
  function Flush(p: Peer, n: nat): (r: (Peer, Bytes, Outcome))
    decreases |p.transmit|
  {
    if |p.transmit| == 0 then (p, [], Done)
    else if !p.stream || p.offset > |p.transmit[0]| then (p, [], Failed)
    else
      var rest := p.transmit[0][p.offset..];
      if n < |rest| then (p.(offset := p.offset + n), rest[..n], Blocked)
      else
        var (q, later, outcome) := Flush(p.(transmit := p.transmit[1..], offset := 0), n - |rest|);
        (q, rest + later, outcome)
  }

  function Queue(p: Peer, frame: Bytes, n: nat): (r: (Peer, Bytes, Outcome)) {
    Flush(p.(transmit := p.transmit + [frame]), n)
  }

  function QueueOrLose(p: Peer, frame: Bytes, n: nat): (r: (Peer, Bytes)) {
    var (q, sent, outcome) := Queue(p, frame, n);
    (if outcome == Failed then q.(lost := true) else q, sent)
  }

  /** `start_client_authentication`. */
  function Start(mac: Mac, p: Peer, nonce: Nonce, n: nat): (r: (Peer, Bytes)) {
    QueueOrLose(p.(stream := true, clientNonce := Some(nonce)), Frame(mac, REQUEST, ForClient, nonce, EmptyNonce()), n)
  }

  /** `handle_auth_frame`; `drawn` is the random server nonce it may use. */
  function HandleFrame(mac: Mac, role: Role, p: Peer, frame: Bytes, drawn: Nonce, n: nat): (r: (Peer, Bytes))
    requires |frame| == FRAME_LEN
  {
    var (kind, client: Nonce, server: Nonce, tag) := (frame[0], frame[1..17], frame[17..33], frame[33..]);
    if role == Server && kind == REQUEST && server == EmptyNonce() && tag == mac(ForClient, client, server) then
      QueueOrLose(p.(clientNonce := Some(client), serverNonce := Some(drawn)),
          Frame(mac, RESPONSE, ForServer, client, drawn), n)
    else if role == Client && kind == RESPONSE && p.clientNonce == Some(client) && server != EmptyNonce()
        && tag == mac(ForServer, client, server) then
      QueueOrLose(p.(serverNonce := Some(server)), Frame(mac, CONFIRM, ForConfirm, client, server), n)
    else if role == Server && kind == CONFIRM && p.clientNonce == Some(client) && p.serverNonce == Some(server)
        && tag == mac(ForConfirm, client, server) then
      var (q, sent, outcome) := Queue(p, Frame(mac, COMPLETE, ForComplete, client, server), n);
      (match outcome
       case Done => q.(authenticated := true)
       case Blocked => q.(afterFlush := true)
       case Failed => q.(lost := true), sent)
    else if role == Client && kind == COMPLETE && p.clientNonce == Some(client) && p.serverNonce == Some(server)
        && tag == mac(ForComplete, client, server) then
      (p.(authenticated := true), [])
    else (p.(lost := true), [])
  }

  /** `drain_auth_stream` on the bytes read; a server adopts the stream on its first read. */
  function Drain(mac: Mac, role: Role, p: Peer, bytes: Bytes, drawn: Nonce, n: nat): (r: (Peer, Bytes)) {
    var q := p.(stream := true, receive := p.receive + bytes);
    if |q.receive| > FRAME_LEN then (q.(lost := true), [])
    else if |q.receive| == FRAME_LEN then HandleFrame(mac, role, q.(receive := []), q.receive, drawn, n)
    else (q, [])
  }

  /** A flush outside frame handling: a server that was waiting for it becomes authenticated. */
  function Writable(p: Peer, n: nat): (r: (Peer, Bytes)) {
    var (q, sent, outcome) := Flush(p, n);
    (match outcome
     case Done => if q.afterFlush then q.(afterFlush := false, authenticated := true) else q
     case Blocked => q
     case Failed => q.(authenticated := false, lost := true), sent)
  }

  // ---- The pair ----

  datatype Pair = Pair(client: Peer, server: Peer, up: Bytes, down: Bytes)

  const INITIAL := Pair(FRESH, FRESH, [], [])

  datatype Step =
    | ClientStart(nonce: Nonce, n: nat)
    | ClientRead(k: nat, n: nat)
    | ServerRead(k: nat, drawn: Nonce, n: nat)
    | ClientFlush(n: nat)
    | ServerFlush(n: nat)

  /** The network hands over any prefix of what is under way; each write is cut anywhere. A side
      that has flagged loss takes no further step. */
  predicate Enabled(s: Pair, step: Step) {
    match step
    case ClientStart(_, _) => !s.client.stream
    case ClientRead(k, _) => k <= |s.down| && s.client.stream && !s.client.lost
    case ServerRead(k, _, _) => k <= |s.up| && (k > 0 || s.server.stream) && !s.server.lost
    case ClientFlush(_) => s.client.stream && !s.client.lost
    case ServerFlush(_) => s.server.stream && !s.server.lost
  }

  function Apply(mac: Mac, s: Pair, step: Step): (r: Pair)
    requires Enabled(s, step)
  {
    match step
    case ClientStart(nonce, n) =>
      var (p, sent) := Start(mac, s.client, nonce, n);
      s.(client := p, up := s.up + sent)
    case ClientRead(k, n) =>
      var (p, sent) := Drain(mac, Client, s.client, s.down[..k], EmptyNonce(), n);
      s.(client := p, down := s.down[k..], up := s.up + sent)
    case ServerRead(k, drawn, n) =>
      var (p, sent) := Drain(mac, Server, s.server, s.up[..k], drawn, n);
      s.(server := p, up := s.up[k..], down := s.down + sent)
    case ClientFlush(n) =>
      var (p, sent) := Writable(s.client, n);
      s.(client := p, up := s.up + sent)
    case ServerFlush(n) =>
      var (p, sent) := Writable(s.server, n);
      s.(server := p, down := s.down + sent)
  }

  // ---- The invariant ----

  /** The bytes a side has queued and not written: at most one frame is ever queued. */
  function Unsent(p: Peer): (r: Bytes) {
    if |p.transmit| == 0 || p.offset > |p.transmit[0]| then [] else p.transmit[0][p.offset..]
  }

  ghost predicate OneQueued(p: Peer) {
    |p.transmit| <= 1 && (|p.transmit| == 1 ==> p.offset < |p.transmit[0]|) && (|p.transmit| == 0 ==> p.offset == 0)
  }

  /** Everything of a direction that is not yet consumed, oldest first. */
  function Upward(s: Pair): (r: Bytes) {
    s.server.receive + s.up + Unsent(s.client)
  }

  function Downward(s: Pair): (r: Bytes) {
    s.client.receive + s.down + Unsent(s.server)
  }

  /** How far the exchange has come: the kind of the frame outstanding, 0 before and 5 after. */
  type Phase = n: nat | n <= 5

  ghost predicate Knows(p: Peer, client: Option<Nonce>, server: Option<Nonce>) {
    p.clientNonce == client && p.serverNonce == server
  }

  ghost predicate Sane(p: Peer) {
    OneQueued(p) && !p.lost && |p.receive| < FRAME_LEN && (p.stream || (p.transmit == [] && p.receive == []))
  }

  ghost predicate Quiet(p: Peer) {
    !p.authenticated && !p.afterFlush
  }

  /** The state of the pair in a phase, for client nonce `c` and server nonce `v`. */
  ghost predicate InPhase(mac: Mac, s: Pair, phase: Phase, c: Nonce, v: Nonce) {
    && Sane(s.client) && Sane(s.server)
    && (s.client.stream <==> phase > 0) && (phase > 1 ==> s.server.stream)
    && Upward(s) == (if phase == 1 then Frame(mac, REQUEST, ForClient, c, EmptyNonce())
                     else if phase == 3 then Frame(mac, CONFIRM, ForConfirm, c, v) else [])
    && Downward(s) == (if phase == 2 then Frame(mac, RESPONSE, ForServer, c, v)
                       else if phase == 4 then Frame(mac, COMPLETE, ForComplete, c, v) else [])
    && Knows(s.client, if phase > 0 then Some(c) else None, if phase > 2 then Some(v) else None)
    && Knows(s.server, if phase > 1 then Some(c) else None, if phase > 1 then Some(v) else None)
    && (phase > 2 ==> v != EmptyNonce())
    && (phase < 4 ==> Quiet(s.server))
    && (phase >= 4 ==> (s.server.authenticated <==> Unsent(s.server) == []) && (s.server.afterFlush <==> Unsent(s.server) != []))
    && (s.client.authenticated <==> phase == 5) && !s.client.afterFlush
  }

  /** The one way to lose: the client refused a response with an all-zero server nonce. */
  ghost predicate Refused(s: Pair) {
    && s.client.lost && !s.server.lost && s.server.serverNonce == Some(EmptyNonce()) && !s.client.authenticated
        && !s.server.authenticated
    && s.server.stream && s.server.transmit == [] && !s.server.afterFlush && Upward(s) == []
  }

  // ---- Flushing ----

  /** A flush moves a prefix of the unsent bytes and is complete exactly when none is left. */
  lemma {:induction false} FlushMoves(p: Peer, n: nat)
    requires OneQueued(p) && p.stream
    ensures var (q, sent, outcome) := Flush(p, n);
      && q == p.(transmit := q.transmit, offset := q.offset) && OneQueued(q)
      && sent + Unsent(q) == Unsent(p) && outcome != Failed && (outcome == Done <==> Unsent(q) == [])
      && |sent| == (if n < |Unsent(p)| then n else |Unsent(p)|)
  {
    if |p.transmit| == 1 {
      var q := p.(transmit := p.transmit[1..], offset := 0);
      assert q.transmit == [];
      assert Flush(q, 0) == (q, [], Done);
      var rest := p.transmit[0][p.offset..];
      if n >= |rest| {
        assert Flush(q, n - |rest|) == (q, [], Done);
        assert rest + [] == rest;
      } else {
        assert rest == rest[..n] + p.transmit[0][p.offset + n..];
      }
    }
  }

  lemma {:induction false} QueueMoves(p: Peer, frame: Bytes, n: nat)
    requires p.transmit == [] && p.offset == 0 && p.stream && |frame| > 0
    ensures var (q, sent, outcome) := Queue(p, frame, n);
      && q == p.(transmit := q.transmit, offset := q.offset) && OneQueued(q)
      && sent + Unsent(q) == frame && outcome != Failed && (outcome == Done <==> Unsent(q) == [])
      && |sent| <= |frame|
  {
    var m := p.(transmit := p.transmit + [frame]);
    assert p.transmit + [frame] == [frame];
    FlushMoves(m, n);
    assert Unsent(m) == frame;
  }

  lemma NoUnsent(p: Peer)
    requires OneQueued(p) && Unsent(p) == []
    ensures p.transmit == [] && p.offset == 0
  {
  }

  // ---- Steps ----

  /** A frame queued on an empty path is all there is on it. */
  lemma FrameUp(s: Pair, t: Pair, sent: Bytes, frame: Bytes)
    requires s.up == [] && t.server.receive == [] && t.up == s.up + sent && sent + Unsent(t.client) == frame
    ensures Upward(t) == frame
  {
    hide Unsent;
    assert [] + ([] + sent) + Unsent(t.client) == sent + Unsent(t.client);
  }

  lemma FrameDown(s: Pair, t: Pair, sent: Bytes, frame: Bytes)
    requires s.down == [] && t.client.receive == [] && t.down == s.down + sent && sent + Unsent(t.server) == frame
    ensures Downward(t) == frame
  {
    hide Unsent;
    assert [] + ([] + sent) + Unsent(t.server) == sent + Unsent(t.server);
  }

  lemma SameUp(s: Pair, t: Pair)
    requires t.server.receive == s.server.receive && t.up == s.up && t.client.transmit == s.client.transmit
        && t.client.offset == s.client.offset
    ensures Upward(t) == Upward(s)
  {
  }

  lemma SameDown(s: Pair, t: Pair)
    requires t.client.receive == s.client.receive && t.down == s.down && t.server.transmit == s.server.transmit
        && t.server.offset == s.server.offset
    ensures Downward(t) == Downward(s)
  {
  }

  lemma ClearUp(t: Pair)
    requires t.server.receive == [] && t.up == [] && Unsent(t.client) == []
    ensures Upward(t) == []
  {
  }

  lemma ClearDown(t: Pair)
    requires t.client.receive == [] && t.down == [] && Unsent(t.server) == []
    ensures Downward(t) == []
  {
  }

  lemma {:induction false} StartKeeps(mac: Mac, s: Pair, nonce: Nonce, n: nat, c: Nonce, v: Nonce)
    requires InPhase(mac, s, 0, c, v)
    ensures InPhase(mac, Apply(mac, s, ClientStart(nonce, n)), 1, nonce, v)
  {
    hide Frame, Queue, Unsent, Upward, Downward, EmptyNonce, OneQueued;
    var frame := Frame(mac, REQUEST, ForClient, nonce, EmptyNonce());
    NothingUp(s);
    QueueMoves(s.client.(stream := true, clientNonce := Some(nonce)), frame, n);
    var t := Apply(mac, s, ClientStart(nonce, n));
    FrameUp(s, t, Queue(s.client.(stream := true, clientNonce := Some(nonce)), frame, n).1, frame);
    SameDown(s, t);
  }

  lemma {:induction false} ClientFlushKeeps(mac: Mac, s: Pair, n: nat, phase: Phase, c: Nonce, v: Nonce)
    requires InPhase(mac, s, phase, c, v) && Enabled(s, ClientFlush(n))
    ensures InPhase(mac, Apply(mac, s, ClientFlush(n)), phase, c, v)
  {
    hide Frame, Flush, Unsent, EmptyNonce, Upward, Downward, OneQueued;
    FlushMoves(s.client, n);
    var t := Apply(mac, s, ClientFlush(n));
    SameUnsent(t.client, Flush(s.client, n).0);
    ClientFlushSlides(s, t, Flush(s.client, n).1);
    QueueIsOne(t.client, Flush(s.client, n).0);
  }

  lemma Slide(a: Bytes, sent: Bytes, left: Bytes, all: Bytes)
    requires sent + left == all
    ensures a + sent + left == a + all
  {
    assert a + sent + left == a + (sent + left);
  }

  lemma {:induction false} ServerFlushKeeps(mac: Mac, s: Pair, n: nat, phase: Phase, c: Nonce, v: Nonce)
    requires InPhase(mac, s, phase, c, v) && Enabled(s, ServerFlush(n))
    ensures InPhase(mac, Apply(mac, s, ServerFlush(n)), phase, c, v)
  {
    hide Frame, Flush, Unsent, EmptyNonce, Upward, Downward, OneQueued;
    FlushMoves(s.server, n);
    var t := Apply(mac, s, ServerFlush(n));
    SameUnsent(t.server, Flush(s.server, n).0);
    ServerFlushSlides(s, t, Flush(s.server, n).1);
    QueueIsOne(t.server, Flush(s.server, n).0);
  }

  /** Flushed bytes move from the queue into the pipe. */
  lemma ClientFlushSlides(s: Pair, t: Pair, sent: Bytes)
    requires t.server == s.server && t.client.receive == s.client.receive && t.down == s.down && t.up == s.up + sent
    requires sent + Unsent(t.client) == Unsent(s.client)
    ensures Upward(t) == Upward(s) && Downward(t) == Downward(s)
  {
    hide Unsent;
    Slide(s.server.receive + s.up, sent, Unsent(t.client), Unsent(s.client));
    assert t.server.receive + (s.up + sent) == s.server.receive + s.up + sent;
  }

  lemma ServerFlushSlides(s: Pair, t: Pair, sent: Bytes)
    requires t.client == s.client && t.server.receive == s.server.receive && t.up == s.up && t.down == s.down + sent
    requires sent + Unsent(t.server) == Unsent(s.server)
    ensures Upward(t) == Upward(s) && Downward(t) == Downward(s)
  {
    hide Unsent;
    Slide(s.client.receive + s.down, sent, Unsent(t.server), Unsent(s.server));
    assert t.client.receive + (s.down + sent) == s.client.receive + s.down + sent;
  }

  lemma QueueIsOne(p: Peer, q: Peer)
    requires OneQueued(q) && p.transmit == q.transmit && p.offset == q.offset
    ensures OneQueued(p)
  {
  }

  /** A read that does not complete a frame only moves bytes. */
  lemma {:induction false} PartialClientRead(mac: Mac, s: Pair, k: nat, n: nat, phase: Phase, c: Nonce, v: Nonce)
    requires InPhase(mac, s, phase, c, v) && Enabled(s, ClientRead(k, n)) && |s.client.receive| + k < FRAME_LEN
    ensures InPhase(mac, Apply(mac, s, ClientRead(k, n)), phase, c, v)
  {
    hide Frame, HandleFrame;
    var t := Apply(mac, s, ClientRead(k, n));
    Regroup(s.client.receive, s.down, k, Unsent(s.server));
    assert t.up == s.up;
    assert Downward(t) == Downward(s) && Upward(t) == Upward(s);
  }

  lemma Regroup(receive: Bytes, pipe: Bytes, k: nat, unsent: Bytes)
    requires k <= |pipe|
    ensures (receive + pipe[..k]) + pipe[k..] + unsent == receive + pipe + unsent
  {
    assert pipe[..k] + pipe[k..] == pipe;
    assert (receive + pipe[..k]) + pipe[k..] == receive + (pipe[..k] + pipe[k..]);
  }

  lemma {:induction false} PartialServerRead(mac: Mac, s: Pair, k: nat, drawn: Nonce, n: nat, phase: Phase, c: Nonce,
          v: Nonce)
    requires InPhase(mac, s, phase, c, v) && Enabled(s, ServerRead(k, drawn, n)) && |s.server.receive| + k < FRAME_LEN
    ensures InPhase(mac, Apply(mac, s, ServerRead(k, drawn, n)), phase, c, v)
  {
    hide Frame, HandleFrame;
    var t := Apply(mac, s, ServerRead(k, drawn, n));
    Regroup(s.server.receive, s.up, k, Unsent(s.client));
    assert t.down == s.down;
    assert Downward(t) == Downward(s) && Upward(t) == Upward(s);
  }

  /** A read can only complete the outstanding frame, and then nothing else is under way. */
  lemma {:induction false} WholeFrame(receive: Bytes, pipe: Bytes, unsent: Bytes, k: nat, frame: Bytes)
    requires receive + pipe + unsent == frame && |frame| <= FRAME_LEN && k <= |pipe| && |receive| + k >= FRAME_LEN
    ensures receive + pipe[..k] == frame && pipe[k..] == [] && unsent == [] && |receive| + k == FRAME_LEN
  {
    assert |receive| + |pipe| + |unsent| == |frame|;
    assert pipe[..k] == pipe;
    assert receive + pipe == (receive + pipe + unsent)[..|receive| + |pipe|];
  }

  lemma WholeUp(s: Pair, k: nat, frame: Bytes)
    requires Upward(s) == frame && |frame| <= FRAME_LEN && k <= |s.up| && |s.server.receive| + k >= FRAME_LEN
    ensures s.server.receive + s.up[..k] == frame && s.up[k..] == [] && Unsent(s.client) == []
        && |s.server.receive| + k == FRAME_LEN
  {
    hide Unsent;
    WholeFrame(s.server.receive, s.up, Unsent(s.client), k, frame);
  }

  lemma WholeDown(s: Pair, k: nat, frame: Bytes)
    requires Downward(s) == frame && |frame| <= FRAME_LEN && k <= |s.down| && |s.client.receive| + k >= FRAME_LEN
    ensures s.client.receive + s.down[..k] == frame && s.down[k..] == [] && Unsent(s.server) == []
        && |s.client.receive| + k == FRAME_LEN
  {
    hide Unsent;
    WholeFrame(s.client.receive, s.down, Unsent(s.server), k, frame);
  }

  lemma HandlesRequest(mac: Mac, p: Peer, c: Nonce, drawn: Nonce, n: nat)
    ensures HandleFrame(mac, Server, p, Frame(mac, REQUEST, ForClient, c, EmptyNonce()), drawn, n)
         == QueueOrLose(p.(clientNonce := Some(c), serverNonce := Some(drawn)),
             Frame(mac, RESPONSE, ForServer, c, drawn), n)
  {
    FrameFields(mac, REQUEST, ForClient, c, EmptyNonce());
    hide Frame, QueueOrLose, EmptyNonce;
  }

  lemma HandlesResponse(mac: Mac, p: Peer, c: Nonce, v: Nonce, n: nat)
    requires p.clientNonce == Some(c)
    ensures HandleFrame(mac, Client, p, Frame(mac, RESPONSE, ForServer, c, v), EmptyNonce(), n)
         == if v == EmptyNonce() then (p.(lost := true), [])
            else QueueOrLose(p.(serverNonce := Some(v)), Frame(mac, CONFIRM, ForConfirm, c, v), n)
  {
    FrameFields(mac, RESPONSE, ForServer, c, v);
    hide Frame, QueueOrLose, EmptyNonce;
  }

  lemma HandlesConfirm(mac: Mac, p: Peer, c: Nonce, v: Nonce, drawn: Nonce, n: nat)
    requires p.clientNonce == Some(c) && p.serverNonce == Some(v)
    ensures var (q, sent, outcome) := Queue(p, Frame(mac, COMPLETE, ForComplete, c, v), n);
      HandleFrame(mac, Server, p, Frame(mac, CONFIRM, ForConfirm, c, v), drawn, n)
        == (match outcome
            case Done => q.(authenticated := true)
            case Blocked => q.(afterFlush := true)
            case Failed => q.(lost := true), sent)
  {
    FrameFields(mac, CONFIRM, ForConfirm, c, v);
    hide Frame, Queue, EmptyNonce;
  }

  lemma HandlesComplete(mac: Mac, p: Peer, c: Nonce, v: Nonce, n: nat)
    requires p.clientNonce == Some(c) && p.serverNonce == Some(v)
    ensures HandleFrame(mac, Client, p, Frame(mac, COMPLETE, ForComplete, c, v), EmptyNonce(),
        n) == (p.(authenticated := true), [])
  {
    FrameFields(mac, COMPLETE, ForComplete, c, v);
    hide Frame, EmptyNonce;
  }

  /** The server completes the request: it draws its nonce and responds. */
  lemma {:induction false} RequestHandled(mac: Mac, s: Pair, k: nat, drawn: Nonce, n: nat, c: Nonce, v: Nonce)
    requires InPhase(mac, s, 1, c, v) && Enabled(s, ServerRead(k, drawn, n)) && |s.server.receive| + k >= FRAME_LEN
    ensures InPhase(mac, Apply(mac, s, ServerRead(k, drawn, n)), 2, c, drawn)
  {
    hide Frame, Flush, HandleFrame, Queue, Unsent, EmptyNonce, Upward, Downward, OneQueued;
    var answer := Frame(mac, RESPONSE, ForServer, c, drawn);
    WholeUp(s, k, Frame(mac, REQUEST, ForClient, c, EmptyNonce()));
    NothingDown(s);
    var p := s.server.(stream := true, receive := []);
    HandlesRequest(mac, p, c, drawn, n);
    QueueMoves(p.(clientNonce := Some(c), serverNonce := Some(drawn)), answer, n);
    var t := Apply(mac, s, ServerRead(k, drawn, n));
    FrameDown(s, t, Queue(p.(clientNonce := Some(c), serverNonce := Some(drawn)), answer, n).1, answer);
    ClearUp(t);
  }

  /** Nothing outstanding in a direction: nothing read, under way or queued. */
  lemma NothingDown(s: Pair)
    requires Downward(s) == [] && OneQueued(s.server)
    ensures s.client.receive == [] && s.down == [] && s.server.transmit == [] && s.server.offset == 0
        && Unsent(s.server) == []
  {
    assert |Downward(s)| == |s.client.receive| + |s.down| + |Unsent(s.server)|;
    NoUnsent(s.server);
  }

  lemma NothingUp(s: Pair)
    requires Upward(s) == [] && OneQueued(s.client)
    ensures s.server.receive == [] && s.up == [] && s.client.transmit == [] && s.client.offset == 0
        && Unsent(s.client) == []
  {
    assert |Upward(s)| == |s.server.receive| + |s.up| + |Unsent(s.client)|;
    NoUnsent(s.client);
  }

  /** The client completes the response: it confirms, unless the server nonce is all zero. */
  lemma {:induction false} ResponseHandled(mac: Mac, s: Pair, k: nat, n: nat, c: Nonce, v: Nonce)
    requires InPhase(mac, s, 2, c, v) && Enabled(s, ClientRead(k, n)) && |s.client.receive| + k >= FRAME_LEN
    ensures var t := Apply(mac, s, ClientRead(k, n));
      if v == EmptyNonce() then Refused(t) else InPhase(mac, t, 3, c, v)
  {
    hide Frame, Flush, HandleFrame, Queue, Unsent, EmptyNonce, Upward, Downward, OneQueued;
    WholeDown(s, k, Frame(mac, RESPONSE, ForServer, c, v));
    NothingUp(s);
    NoUnsent(s.server);
    var p := s.client.(receive := []);
    HandlesResponse(mac, p, c, v, n);
    var t := Apply(mac, s, ClientRead(k, n));
    if v != EmptyNonce() {
      var answer := Frame(mac, CONFIRM, ForConfirm, c, v);
      QueueMoves(p.(serverNonce := Some(v)), answer, n);
      FrameUp(s, t, Queue(p.(serverNonce := Some(v)), answer, n).1, answer);
      ClearDown(t);
    } else {
      assert t.up == [] && t.client.transmit == [];
      EmptyQueue(t.client);
      ClearUp(t);
    }
  }

  lemma EmptyQueue(p: Peer)
    requires p.transmit == []
    ensures Unsent(p) == []
  {
  }

  /** The server completes the confirmation: it answers and authenticates once that is written. */
  lemma {:induction false} ConfirmHandled(mac: Mac, s: Pair, k: nat, drawn: Nonce, n: nat, c: Nonce, v: Nonce)
    requires InPhase(mac, s, 3, c, v) && Enabled(s, ServerRead(k, drawn, n)) && |s.server.receive| + k >= FRAME_LEN
    ensures InPhase(mac, Apply(mac, s, ServerRead(k, drawn, n)), 4, c, v)
  {
    hide Frame, Flush, HandleFrame, Queue, Unsent, EmptyNonce, Upward, Downward, OneQueued;
    var answer := Frame(mac, COMPLETE, ForComplete, c, v);
    WholeUp(s, k, Frame(mac, CONFIRM, ForConfirm, c, v));
    NothingDown(s);
    var p := s.server.(stream := true, receive := []);
    HandlesConfirm(mac, p, c, v, drawn, n);
    QueueMoves(p, answer, n);
    var t := Apply(mac, s, ServerRead(k, drawn, n));
    var q := Queue(p, answer, n).0;
    assert t.server == q.(authenticated := t.server.authenticated, afterFlush := t.server.afterFlush);
    SameUnsent(t.server, q);
    QueueIsOne(t.server, q);
    FrameDown(s, t, Queue(p, answer, n).1, answer);
    ClearUp(t);
  }

  lemma SameUnsent(p: Peer, q: Peer)
    requires p.transmit == q.transmit && p.offset == q.offset
    ensures Unsent(p) == Unsent(q)
  {
  }

  /** The client completes the completion: both sides are authenticated. */
  lemma {:induction false} CompleteHandled(mac: Mac, s: Pair, k: nat, n: nat, c: Nonce, v: Nonce)
    requires InPhase(mac, s, 4, c, v) && Enabled(s, ClientRead(k, n)) && |s.client.receive| + k >= FRAME_LEN
    ensures InPhase(mac, Apply(mac, s, ClientRead(k, n)), 5, c, v)
  {
    hide Frame, Flush, HandleFrame, Queue, Unsent, EmptyNonce, Upward, Downward, OneQueued;
    WholeDown(s, k, Frame(mac, COMPLETE, ForComplete, c, v));
    HandlesComplete(mac, s.client.(receive := []), c, v, n);
    var t := Apply(mac, s, ClientRead(k, n));
    SameUnsent(t.client, s.client);
    QueueIsOne(t.client, s.client);
    assert t.up == s.up;
    SameUp(s, t);
    ClearDown(t);
  }

  lemma {:induction false} ClientReadKeeps(mac: Mac, s: Pair, k: nat, n: nat, phase: Phase, c: Nonce, v: Nonce)
    requires InPhase(mac, s, phase, c, v) && Enabled(s, ClientRead(k, n))
    ensures var t := Apply(mac, s, ClientRead(k, n));
      if |s.client.receive| + k < FRAME_LEN then InPhase(mac, t, phase, c, v)
      else (phase == 2 || phase == 4) && if phase == 2 && v == EmptyNonce() then Refused(t)
          else InPhase(mac, t, phase + 1, c, v)
  {
    hide Frame, Apply;
    if |s.client.receive| + k < FRAME_LEN {
      PartialClientRead(mac, s, k, n, phase, c, v);
    } else {
      assert |Downward(s)| >= FRAME_LEN;
      if phase == 2 { ResponseHandled(mac, s, k, n, c, v); } else { CompleteHandled(mac, s, k, n, c, v); }
    }
  }

  lemma {:induction false} ServerReadKeeps(mac: Mac, s: Pair, k: nat, drawn: Nonce, n: nat, phase: Phase, c: Nonce,
          v: Nonce)
    requires InPhase(mac, s, phase, c, v) && Enabled(s, ServerRead(k, drawn, n))
    ensures var t := Apply(mac, s, ServerRead(k, drawn, n));
      if |s.server.receive| + k < FRAME_LEN then InPhase(mac, t, phase, c, v)
      else (phase == 1 || phase == 3) && InPhase(mac, t, phase + 1, c, if phase == 1 then drawn else v)
  {
    hide Frame, Apply;
    if |s.server.receive| + k < FRAME_LEN {
      PartialServerRead(mac, s, k, drawn, n, phase, c, v);
    } else {
      assert |Upward(s)| >= FRAME_LEN;
      if phase == 1 { RequestHandled(mac, s, k, drawn, n, c, v); } else { ConfirmHandled(mac, s, k, drawn, n, c, v); }
    }
  }

  /** A pair in which the client has refused stays so. */
  lemma {:induction false} RefusedStays(mac: Mac, s: Pair, step: Step)
    requires Refused(s) && Enabled(s, step) && s.client.stream
    ensures Refused(Apply(mac, s, step)) && Apply(mac, s, step).client.stream
  {
    hide HandleFrame;
    match step {
      case ServerRead(k, drawn, n) => assert s.up == [] && s.server.receive == [];
      case ServerFlush(n) =>
        assert Flush(s.server, n) == (s.server, [], Done);
        assert Upward(Apply(mac, s, step)) == Upward(s);
      case _ =>
    }
  }

  ghost predicate Reachable(mac: Mac, s: Pair) {
    (Refused(s) && s.client.stream) || exists phase: Phase, c: Nonce, v: Nonce :: InPhase(mac, s, phase, c, v)
  }

  /** Every step from a phase stays in it, moves to the next, or is the refusal. */
  lemma {:induction false} PhaseStep(mac: Mac, s: Pair, step: Step, phase: Phase, c: Nonce, v: Nonce)
    requires InPhase(mac, s, phase, c, v) && Enabled(s, step)
    ensures Reachable(mac, Apply(mac, s, step))
    ensures Refused(Apply(mac, s, step)) <==> RefusingStep(s, step)
  {
    hide Frame, Apply, Upward, Downward, OneQueued, EmptyNonce, Unsent;
    var t := Apply(mac, s, step);
    match step {
      case ClientStart(nonce, n) => StartKeeps(mac, s, nonce, n, c, v);
      case ClientRead(k, n) => ClientReadKeeps(mac, s, k, n, phase, c, v); StreamStays(mac, s, k, n);
      case ServerRead(k, drawn, n) => ServerReadKeeps(mac, s, k, drawn, n, phase, c, v);
      case ClientFlush(n) => ClientFlushKeeps(mac, s, n, phase, c, v);
      case ServerFlush(n) => ServerFlushKeeps(mac, s, n, phase, c, v);
    }
  }

  lemma StreamStays(mac: Mac, s: Pair, k: nat, n: nat)
    requires Enabled(s, ClientRead(k, n))
    ensures Apply(mac, s, ClientRead(k, n)).client.stream
  {
    hide Frame;
    var frame := Frame(mac, CONFIRM, ForConfirm, EmptyNonce(), EmptyNonce());
    FlushKeepsStream(s.client, n);
    if |s.client.receive + s.down[..k]| == FRAME_LEN {
      HandleKeepsStream(mac, s.client.(receive := []), s.client.receive + s.down[..k], n);
    }
  }

  lemma {:induction false} FlushKeepsStream(p: Peer, n: nat)
    ensures Flush(p, n).0.stream == p.stream
    decreases |p.transmit|
  {
    if |p.transmit| > 0 && p.stream && p.offset <= |p.transmit[0]| && n >= |p.transmit[0][p.offset..]| {
      FlushKeepsStream(p.(transmit := p.transmit[1..], offset := 0), n - |p.transmit[0][p.offset..]|);
    }
  }

  lemma HandleKeepsStream(mac: Mac, p: Peer, frame: Bytes, n: nat)
    requires |frame| == FRAME_LEN
    ensures HandleFrame(mac, Client, p, frame, EmptyNonce(), n).0.stream == p.stream
  {
    hide Flush, Frame;
    var (client: Nonce, server: Nonce) := (frame[1..17], frame[17..33]);
    FlushKeepsStream(p.(serverNonce := Some(server),
        transmit := p.transmit + [Frame(mac, CONFIRM, ForConfirm, client, server)]), n);
  }

  /** The step in which the client refuses: it completes a response carrying an all-zero nonce. */
  ghost predicate RefusingStep(s: Pair, step: Step) {
    && step.ClientRead? && |s.client.receive| + step.k >= FRAME_LEN
    && s.client.serverNonce == None && s.server.serverNonce == Some(EmptyNonce())
  }

  // ---- Runs ----

  ghost predicate IsRun(mac: Mac, states: seq<Pair>, steps: seq<Step>) {
    && |states| == |steps| + 1 && states[0] == INITIAL
    && forall i :: 0 <= i < |steps| ==> Enabled(states[i], steps[i]) && states[i + 1] == Apply(mac, states[i], steps[i])
  }

  lemma InitialPhase(mac: Mac)
    ensures InPhase(mac, INITIAL, 0, EmptyNonce(), EmptyNonce())
  {
  }

  lemma {:induction false} RunReachable(mac: Mac, states: seq<Pair>, steps: seq<Step>, i: nat)
    requires IsRun(mac, states, steps) && i < |states|
    ensures Reachable(mac, states[i])
  {
    hide Apply, Enabled, InPhase, Refused, RefusingStep;
    if i == 0 {
      InitialPhase(mac);
    } else {
      RunReachable(mac, states, steps, i - 1);
      var s := states[i - 1];
      if Refused(s) && s.client.stream {
        RefusedStays(mac, s, steps[i - 1]);
      } else {
        var phase: Phase, c: Nonce, v: Nonce :| InPhase(mac, s, phase, c, v);
        PhaseStep(mac, s, steps[i - 1], phase, c, v);
      }
    }
  }

  /** What holds in every reachable state, under every schedule of partial reads and writes: loss is
      flagged only after an all-zero server nonce, and then by the client; no direction ever has more
      than one frame outstanding; an authenticated client implies an authenticated server that holds
      the same pair of nonces. */
  lemma {:induction false} Agreement(mac: Mac, states: seq<Pair>, steps: seq<Step>, i: nat)
    requires IsRun(mac, states, steps) && i < |states|
    ensures var s := states[i];
      && !s.server.lost && (s.client.lost ==> s.server.serverNonce == Some(EmptyNonce()))
      && |Upward(s)| <= FRAME_LEN && (!s.client.lost ==> |Downward(s)| <= FRAME_LEN)
      && (s.client.authenticated ==>
            && s.server.authenticated && s.client.clientNonce == s.server.clientNonce
                && s.client.serverNonce == s.server.serverNonce
            && s.client.clientNonce.Some? && s.client.serverNonce.Some? && s.client.serverNonce != Some(EmptyNonce()))
      && (s.server.authenticated ==>
          s.client.clientNonce == s.server.clientNonce && s.client.serverNonce == s.server.serverNonce)
  {
    hide Apply, Enabled, Frame;
    RunReachable(mac, states, steps, i);
  }

  /** A step from a state without loss leads to loss if and only if the client completes a response
      whose server nonce is all zero. */
  lemma {:induction false} LossIff(mac: Mac, states: seq<Pair>, steps: seq<Step>, i: nat)
    requires IsRun(mac, states, steps) && i < |steps| && !states[i].client.lost
    ensures states[i + 1].client.lost || states[i + 1].server.lost <==> RefusingStep(states[i], steps[i])
  {
    hide Apply, Enabled, RefusingStep, Frame;
    RunReachable(mac, states, steps, i);
    RunReachable(mac, states, steps, i + 1);
    var phase: Phase, c: Nonce, v: Nonce :| InPhase(mac, states[i], phase, c, v);
    PhaseStep(mac, states[i], steps[i], phase, c, v);
  }

  /** A whole frame on its way up, all of it written. */
  lemma {:induction false} AllUp(mac: Mac, s: Pair, c: Nonce, v: Nonce)
    requires InPhase(mac, s, 1, c, v)
    ensures var t := Apply(mac, s, ClientFlush(|Unsent(s.client)|));
      InPhase(mac, t, 1, c, v) && Enabled(t, ServerRead(|t.up|, v, 0)) && |t.server.receive| + |t.up| == FRAME_LEN
  {
    hide Frame, Apply;
    ClientFlushKeeps(mac, s, |Unsent(s.client)|, 1, c, v);
    ClientFlushAll(mac, s);
  }

  lemma {:induction false} AllDown(mac: Mac, s: Pair, c: Nonce, v: Nonce)
    requires InPhase(mac, s, 2, c, v)
    ensures var t := Apply(mac, s, ServerFlush(|Unsent(s.server)|));
      InPhase(mac, t, 2, c, v) && Enabled(t, ClientRead(|t.down|, 0)) && |t.client.receive| + |t.down| == FRAME_LEN
  {
    hide Frame, Apply;
    ServerFlushKeeps(mac, s, |Unsent(s.server)|, 2, c, v);
    ServerFlushAll(mac, s);
  }

  /** Loss does occur: for every MAC and client nonce there is a run between two honest sides that ends
      in loss because the server drew the all-zero nonce. */
  lemma {:induction false} ZeroNonceLoses(mac: Mac, nonce: Nonce) returns (states: seq<Pair>, steps: seq<Step>)
    ensures IsRun(mac, states, steps) && |steps| == 5
    ensures steps[2].ServerRead? && steps[2].drawn == EmptyNonce() && states[5].client.lost && !states[4].client.lost
  {
    hide Frame, Apply, EmptyNonce, InPhase, Unsent;
    var v := EmptyNonce();
    InitialPhase(mac);
    StartKeeps(mac, INITIAL, nonce, 0, v, v);
    var s1 := Apply(mac, INITIAL, ClientStart(nonce, 0));
    StreamOf(mac, s1, 1, nonce, v);
    var up := ClientFlush(|Unsent(s1.client)|);
    AllUp(mac, s1, nonce, v);
    var s2 := Apply(mac, s1, up);
    RequestHandled(mac, s2, |s2.up|, v, 0, nonce, v);
    var s3 := Apply(mac, s2, ServerRead(|s2.up|, v, 0));
    StreamOf(mac, s3, 2, nonce, v);
    var down := ServerFlush(|Unsent(s3.server)|);
    AllDown(mac, s3, nonce, v);
    var s4 := Apply(mac, s3, down);
    StreamOf(mac, s4, 2, nonce, v);
    ResponseHandled(mac, s4, |s4.down|, 0, nonce, v);
    var s5 := Apply(mac, s4, ClientRead(|s4.down|, 0));
    states := [INITIAL, s1, s2, s3, s4, s5];
    steps := [ClientStart(nonce, 0), up, ServerRead(|s2.up|, v, 0), down, ClientRead(|s4.down|, 0)];
  }

  lemma StreamOf(mac: Mac, s: Pair, phase: Phase, c: Nonce, v: Nonce)
    requires InPhase(mac, s, phase, c, v)
    ensures (phase > 0 ==> s.client.stream) && (phase > 1 ==> s.server.stream) && !s.client.lost && !s.server.lost
  {
  }

  // ---- Progress ----

  /** The nonce the server would respond with is known to be non-zero. */
  ghost predicate Honest(s: Pair) {
    s.server.serverNonce != Some(EmptyNonce())
  }

  /** Work left: phases to go, and bytes of the outstanding frame still to be written and read. */
  ghost function Work(s: Pair, phase: Phase): nat {
    (5 - phase) * 1000 + 2 * (|Unsent(s.client)| + |Unsent(s.server)|) + |s.up| + |s.down|
  }

  /** Until both sides are authenticated some byte can be moved (or the client can start), and doing
      so lowers the work left: the exchange cannot get stuck. */
  lemma {:induction false} Progress(mac: Mac, s: Pair, phase: Phase, c: Nonce, v: Nonce, nonce: Nonce, drawn: Nonce)
          returns (step: Step, next: Phase, cc: Nonce, vv: Nonce)
    requires InPhase(mac, s, phase, c, v) && phase < 5 && Honest(s) && drawn != EmptyNonce()
    ensures Enabled(s, step) && InPhase(mac, Apply(mac, s, step), next, cc, vv) && Honest(Apply(mac, s, step))
    ensures Work(Apply(mac, s, step), next) < Work(s, phase)
  {
    hide Frame, Apply;
    cc, vv := c, v;
    if phase == 0 {
      step, next, cc := ClientStart(nonce, 0), 1, nonce;
      StartKeeps(mac, s, nonce, 0, c, v);
    } else if Unsent(s.client) != [] {
      step, next := ClientFlush(|Unsent(s.client)|), phase;
      ClientFlushKeeps(mac, s, |Unsent(s.client)|, phase, c, v);
      ClientFlushAll(mac, s);
    } else if Unsent(s.server) != [] {
      step, next := ServerFlush(|Unsent(s.server)|), phase;
      assert s.server.stream;
      ServerFlushKeeps(mac, s, |Unsent(s.server)|, phase, c, v);
      ServerFlushAll(mac, s);
    } else if phase == 1 || phase == 3 {
      step, next := ServerRead(|s.up|, drawn, 0), phase + 1;
      AllWritten(mac, s, phase, c, v);
      ServerReadKeeps(mac, s, |s.up|, drawn, 0, phase, c, v);
      vv := if phase == 1 then drawn else v;
    } else {
      step, next := ClientRead(|s.down|, 0), phase + 1;
      AllWritten(mac, s, phase, c, v);
      ClientReadKeeps(mac, s, |s.down|, 0, phase, c, v);
    }
    var t := Apply(mac, s, step);
    if next > phase { Bounded(mac, t, next, cc, vv); }
  }

  /** With nothing left to write, the rest of the outstanding frame is in the pipe. */
  lemma AllWritten(mac: Mac, s: Pair, phase: Phase, c: Nonce, v: Nonce)
    requires InPhase(mac, s, phase, c, v) && 0 < phase < 5 && Unsent(s.client) == [] && Unsent(s.server) == []
    ensures phase == 1 || phase == 3 ==> |s.server.receive| + |s.up| == FRAME_LEN
    ensures phase == 2 || phase == 4 ==> |s.client.receive| + |s.down| == FRAME_LEN
  {
    hide Frame, Unsent, EmptyNonce;
  }

  lemma ClientFlushAll(mac: Mac, s: Pair)
    requires OneQueued(s.client) && s.client.stream && !s.client.lost
    ensures var t := Apply(mac, s, ClientFlush(|Unsent(s.client)|));
      Unsent(t.client) == [] && |t.up| == |s.up| + |Unsent(s.client)| && t.down == s.down && t.server == s.server
  {
    hide Flush;
    FlushMoves(s.client, |Unsent(s.client)|);
  }

  lemma ServerFlushAll(mac: Mac, s: Pair)
    requires OneQueued(s.server) && s.server.stream && !s.server.lost
    ensures var t := Apply(mac, s, ServerFlush(|Unsent(s.server)|));
      Unsent(t.server) == [] && |t.down| == |s.down| + |Unsent(s.server)| && t.up == s.up && t.client == s.client
  {
    hide Flush;
    FlushMoves(s.server, |Unsent(s.server)|);
  }

  lemma {:induction false} Bounded(mac: Mac, s: Pair, phase: Phase, c: Nonce, v: Nonce)
    requires InPhase(mac, s, phase, c, v)
    ensures 2 * (|Unsent(s.client)| + |Unsent(s.server)|) + |s.up| + |s.down| <= 4 * FRAME_LEN
  {
    hide Frame;
    assert |Upward(s)| <= FRAME_LEN && |Downward(s)| <= FRAME_LEN;
  }

  lemma BothAuthenticated(mac: Mac, s: Pair, c: Nonce, v: Nonce)
    requires InPhase(mac, s, 5, c, v)
    ensures Agreed(s)
  {
    hide Frame;
    NothingDown(s);
  }

  /** A schedule from `s` on. */
  ghost predicate IsPath(mac: Mac, s: Pair, states: seq<Pair>, steps: seq<Step>) {
    && |states| == |steps| + 1 && states[0] == s
    && forall i :: 0 <= i < |steps| ==> Enabled(states[i], steps[i]) && states[i + 1] == Apply(mac, states[i], steps[i])
  }

  /** Both sides are authenticated on the same nonces, and neither has flagged loss. */
  ghost predicate Agreed(t: Pair) {
    && t.client.authenticated && t.server.authenticated && !t.client.lost && !t.server.lost
    && t.client.clientNonce == t.server.clientNonce && t.client.serverNonce == t.server.serverNonce
  }

  ghost predicate CanComplete(mac: Mac, s: Pair) {
    exists states, steps :: IsPath(mac, s, states, steps) && Agreed(states[|steps|])
  }

  /** From a phase there is a schedule to agreement. */
  lemma {:induction false} Completes(mac: Mac, s: Pair, phase: Phase, c: Nonce, v: Nonce, nonce: Nonce, drawn: Nonce)
          returns (states: seq<Pair>, steps: seq<Step>)
    requires InPhase(mac, s, phase, c, v) && Honest(s) && drawn != EmptyNonce()
    ensures IsPath(mac, s, states, steps) && Agreed(states[|steps|])
    decreases Work(s, phase)
  {
    hide Apply, Enabled, Work, InPhase, Honest;
    if phase == 5 {
      BothAuthenticated(mac, s, c, v);
      states, steps := [s], [];
    } else {
      var step, next, cc, vv := Progress(mac, s, phase, c, v, nonce, drawn);
      var later, more := Completes(mac, Apply(mac, s, step), next, cc, vv, nonce, drawn);
      states, steps := [s] + later, [step] + more;
    }
  }

  /** A drawn all-zero nonce is never replaced. */
  lemma {:induction false} ZeroStays(mac: Mac, s: Pair, step: Step)
    requires Reachable(mac, s) && Enabled(s, step) && !Honest(s)
    ensures Reachable(mac, Apply(mac, s, step)) && !Honest(Apply(mac, s, step))
  {
    hide Apply, Enabled, Frame;
    if Refused(s) && s.client.stream {
      RefusedStays(mac, s, step);
    } else {
      var phase: Phase, c: Nonce, v: Nonce :| InPhase(mac, s, phase, c, v);
      PhaseStep(mac, s, step, phase, c, v);
      ServerNonceStays(mac, s, step, phase, c, v);
    }
  }

  lemma {:induction false} ServerNonceStays(mac: Mac, s: Pair, step: Step, phase: Phase, c: Nonce, v: Nonce)
    requires InPhase(mac, s, phase, c, v) && Enabled(s, step) && phase > 1
    ensures Apply(mac, s, step).server.serverNonce == s.server.serverNonce
  {
    hide Frame, HandleFrame, Flush, Drain;
    match step {
      case ServerRead(k, drawn, n) =>
        ServerReadKeeps(mac, s, k, drawn, n, phase, c, v);
      case ServerFlush(n) => FlushMoves(s.server, n);
      case _ =>
    }
  }

  lemma {:induction false} ZeroPath(mac: Mac, s: Pair, states: seq<Pair>, steps: seq<Step>, i: nat)
    requires Reachable(mac, s) && !Honest(s) && IsPath(mac, s, states, steps) && i < |states|
    ensures Reachable(mac, states[i]) && !Honest(states[i])
  {
    hide Apply, Enabled, Reachable, Honest;
    if i > 0 {
      ZeroPath(mac, s, states, steps, i - 1);
      ZeroStays(mac, states[i - 1], steps[i - 1]);
    }
  }

  lemma {:induction false} AgreedIsHonest(mac: Mac, s: Pair)
    requires Reachable(mac, s) && Agreed(s)
    ensures Honest(s)
  {
    hide Frame;
  }

  /** In every state of every run, whatever has been cut or delayed so far, the exchange can still be
      completed if and only if the server has not drawn the all-zero nonce. */
  lemma {:induction false} CompletableIff(mac: Mac, states: seq<Pair>, steps: seq<Step>, i: nat)
    requires IsRun(mac, states, steps) && i < |states|
    ensures CanComplete(mac, states[i]) <==> Honest(states[i])
  {
    hide InPhase, Refused, Apply, Enabled, Agreed;
    RunReachable(mac, states, steps, i);
    var s := states[i];
    if Honest(s) {
      RefusedIsZero(s);
      var phase: Phase, c: Nonce, v: Nonce :| InPhase(mac, s, phase, c, v);
      var one: Nonce := seq(16, _ => 1);
      NonZero(one);
      var later, more := Completes(mac, s, phase, c, v, one, one);
    } else if CanComplete(mac, s) {
      var later, more :| IsPath(mac, s, later, more) && Agreed(later[|more|]);
      ZeroPath(mac, s, later, more, |more|);
      AgreedIsHonest(mac, later[|more|]);
    }
  }

  lemma NonZero(one: Nonce)
    requires one == seq(16, _ => 1)
    ensures one != EmptyNonce()
  {
    assert one[0] == 1 && EmptyNonce()[0] == 0;
  }

  lemma RefusedIsZero(s: Pair)
    ensures Refused(s) ==> !Honest(s)
  {
  }

  /** In every state of every run in which the server has not drawn the all-zero nonce, some step lowers
      the work left, until both sides are authenticated. */
  lemma {:induction false} RunProgress(mac: Mac, states: seq<Pair>, steps: seq<Step>, i: nat, nonce: Nonce,
          drawn: Nonce)
    requires IsRun(mac, states, steps) && i < |states| && Honest(states[i]) && drawn != EmptyNonce()
    ensures Agreed(states[i]) || exists phase: Phase, step: Step, next: Phase ::
        Advances(mac, states[i], phase, step, next)
  {
    hide InPhase, Refused, Apply, Enabled, Agreed, Work, Honest;
    RunReachable(mac, states, steps, i);
    RefusedIsZero(states[i]);
    var phase: Phase, c: Nonce, v: Nonce :| InPhase(mac, states[i], phase, c, v);
    if phase == 5 {
      BothAuthenticated(mac, states[i], c, v);
    } else {
      var step, next, cc, vv := Progress(mac, states[i], phase, c, v, nonce, drawn);
      assert At(mac, states[i], phase) && At(mac, Apply(mac, states[i], step), next);
      assert Advances(mac, states[i], phase, step, next);
    }
  }

  ghost predicate At(mac: Mac, s: Pair, phase: Phase) {
    exists c: Nonce, v: Nonce :: InPhase(mac, s, phase, c, v)
  }

  ghost predicate Advances(mac: Mac, s: Pair, phase: Phase, step: Step, next: Phase) {
    && Enabled(s, step) && At(mac, s, phase) && At(mac, Apply(mac, s, step), next)
    && Work(Apply(mac, s, step), next) < Work(s, phase)
  }

  /** One turn of the flush. */
  lemma FlushUnfold(p: Peer, n: nat)
    ensures |p.transmit| == 0 ==> Flush(p, n) == (p, [], Done)
    ensures |p.transmit| > 0 && (!p.stream || p.offset > |p.transmit[0]|) ==> Flush(p, n) == (p, [], Failed)
    ensures |p.transmit| > 0 && p.stream && p.offset <= |p.transmit[0]| ==>
      var rest := p.transmit[0][p.offset..];
      if n < |rest| then Flush(p, n) == (p.(offset := p.offset + n), rest[..n], Blocked)
      else
        var later := Flush(p.(transmit := p.transmit[1..], offset := 0), n - |rest|);
        Flush(p, n) == (later.0, rest + later.1, later.2)
  {
  }

  /** The loop of `flush_auth_stream`, given how many bytes the stream will still accept. */
  method FlushAuthStream(p: Peer, accepts: nat) returns (q: Peer, sent: Bytes, outcome: Outcome)
    ensures (q, sent, outcome) == Flush(p, accepts)
  {
    hide Flush;
    q, sent := p, [];
    var left: nat := accepts;
    assert [] + Flush(p, accepts).1 == Flush(p, accepts).1;
    while |q.transmit| > 0
      invariant Flush(p, accepts) == (Flush(q, left).0, sent + Flush(q, left).1, Flush(q, left).2)
      decreases |q.transmit|
    {
      FlushUnfold(q, left);
      if !q.stream || q.offset > |q.transmit[0]| {
        assert sent + [] == sent;
        return q, sent, Failed;
      }
      var rest := q.transmit[0][q.offset..];
      if left < |rest| {
        return q.(offset := q.offset + left), sent + rest[..left], Blocked;
      }
      ghost var later := Flush(q.(transmit := q.transmit[1..], offset := 0), left - |rest|).1;
      assert sent + (rest + later) == (sent + rest) + later;
      q := q.(transmit := q.transmit[1..], offset := 0);
      sent := sent + rest;
      left := left - |rest|;
    }
    FlushUnfold(q, left);
    assert sent + [] == sent;
    outcome := Done;
  }
}
