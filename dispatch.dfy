/**
 * What one step of the program does to the connection table, as values:
 * the `connect` pre-checks of connect_to_peer (chat.py:73-98), one command
 * of handle_user_input (chat.py:101-171), a run of commands until the
 * dispatcher stops, and one accepted connection of the main loop
 * (chat.py:200-219). The class in node.dfy performs these in place.
 */
module Dispatch {
  import opened Wrappers
  import opened PyText
  import opened Handshake
  import opened Commands
  import opened Registry

  /**
   * What the program asks of the machine it runs on: `get_my_ip()`,
   * `get_my_port(server_socket)`, and `ipaddress.ip_address` as a verdict
   * on a text.
   */
  datatype Host = Host(myIp: string, myPort: int, isIp: string -> bool)

  /**
   * What the network does during one command: whether dialing (and sending
   * the handshake) succeeds and which socket it yields, and whether
   * `sendall` succeeds.
   */
  datatype Io = Io(dialOk: bool, dialed: Socket, sendOk: bool)

  /** One thing `input()` can produce. */
  datatype Event = Line(text: string) | EndOfInput | Interrupt

  /** Why connect_to_peer returned `None`. */
  datatype Refusal =
    | BadAddress        // `ip_address` or `int(port)` raised
    | SelfConnect       // the host's own ip and port
    | AlreadyConnected  // an entry already has this address
    | DialFailed        // connect or the handshake send raised

  /** The result of connect_to_peer: a connected address, or why not. */
  datatype Dial = Dialed(addr: Addr) | Refused(why: Refusal)

  /**
   * connect_to_peer (chat.py:73-98): the address is checked, then the host's
   * own address and every entry of the table are refused, and only then is
   * the peer dialed.
   */
  function ConnectToPeer(t: Table, host: Host, ip: string, port: string, dialOk: bool): (d: Dial)
    requires Valid(t)
    ensures d == Refused(BadAddress) <==> !host.isIp(ip) || ParseInt(port).None?
    ensures d == Refused(SelfConnect) <==> host.isIp(ip) && ip == host.myIp && ParseInt(port) == Some(host.myPort)
    ensures host.isIp(ip) && ParseInt(port).Some? && Addr(ip, ParseInt(port).value) != Addr(host.myIp, host.myPort) ==>
      (d == Refused(AlreadyConnected) <==> HasAddr(t, Addr(ip, ParseInt(port).value)))
    ensures d.Dialed? <==>
      && host.isIp(ip) && ParseInt(port).Some?
      && Addr(ip, ParseInt(port).value) != Addr(host.myIp, host.myPort)
      && !HasAddr(t, Addr(ip, ParseInt(port).value))
      && dialOk
    ensures d.Dialed? ==> d.addr == Addr(ip, ParseInt(port).value)
  {
    if !host.isIp(ip) then Refused(BadAddress)
    else match ParseInt(port)
      case None => Refused(BadAddress)
      case Some(p) =>
        if host.myIp == ip && host.myPort == p then Refused(SelfConnect)
        else if HasAddr(t, Addr(ip, p)) then Refused(AlreadyConnected)
        else if !dialOk then Refused(DialFailed)
        else Dialed(Addr(ip, p))
  }

  /** What a command shows, or does to a socket, besides changing the table. */
  datatype Effect =
    | HelpShown
    | IpShown(ip: string)
    | PortShown(port: int)
    | UsageShown(command: string)
    | ConnectFailed(why: Refusal)
    | Connected(id: int, addr: Addr)
    | Listed(rows: seq<(int, Addr)>)
    | InvalidId
    | Terminated(id: int, sock: Socket)      // the socket is closed
    | Sent(sock: Socket, text: string)
    | SendRaised(sock: Socket, text: string) // `sendall` raised: the dispatcher thread ends
    | ShuttingDown
    | InputEnded
    | UnknownShown

  /**
   * After one event: the table, whether `running` is still true, whether the
   * dispatcher thread is still alive, and what it showed or did.
   */
  datatype Outcome = Outcome(table: Table, running: bool, alive: bool, effect: Effect)

  /** `exit`, end of input and an interrupt clear `running` (chat.py:164-171). */
  predicate Stops(ev: Event)
  {
    ev.EndOfInput? || ev.Interrupt? || Strip(ev.text) == "exit"
  }

  /** The events that clear `running` are end of input, an interrupt, and a line recognised as `exit`. */
  lemma StopsIffExit(ev: Event)
    ensures Stops(ev) <==> !ev.Line? || CommandOf(ev.text) == Exit
  {
  }

  /**
   * One pass of the dispatcher loop's body (chat.py:104-171), while
   * `running` is true: end of input and an interrupt clear `running`
   * (chat.py:170-171), a line is stripped, recognised and handled.
   */
  function Step(t: Table, host: Host, ev: Event, io: Io): (o: Outcome)
    requires Valid(t)
    ensures Valid(o.table)
    ensures o.running <==> !Stops(ev)
    ensures !o.alive <==> o.effect.SendRaised?
    ensures !o.alive ==> o.running
    ensures !ev.Line? ==> o == Outcome(t, false, true, InputEnded)
  {
    match ev
    case EndOfInput => Outcome(t, false, true, InputEnded)
    case Interrupt => Outcome(t, false, true, InputEnded)
    case Line(text) => Handle(t, host, CommandOf(text), io)
  }

  /**
   * The branch of the if/elif chain for a recognised command
   * (chat.py:109-169). Only a successful `connect` and the `terminate` of a
   * present id change the table; `sendall` raising is not caught and ends
   * the dispatcher with `running` still set.
   */
  function Handle(t: Table, host: Host, cmd: Command, io: Io): (o: Outcome)
    requires Valid(t)
    ensures Valid(o.table)
    ensures o.running <==> cmd != Exit
    ensures !o.alive <==> o.effect.SendRaised?
  {
    match cmd
    case Help => Outcome(t, true, true, HelpShown)
    case MyIp => Outcome(t, true, true, IpShown(host.myIp))
    case MyPort => Outcome(t, true, true, PortShown(host.myPort))
    case Connect(ip, port) =>
      (match ConnectToPeer(t, host, ip, port, io.dialOk)
       case Refused(why) => Outcome(t, true, true, ConnectFailed(why))
       case Dialed(addr) =>
         var u := AdmitOutbound(t, Conn(io.dialed, addr));
         Outcome(u.table, true, true, Connected(u.id.value, addr)))
    case ConnectUsage => Outcome(t, true, true, UsageShown("connect"))
    case List => Outcome(t, true, true, Listed(Rows(t)))
    case Terminate(id) =>
      if id in t.entries then Outcome(TerminateId(t, id), true, true, Terminated(id, t.entries[id].sock))
      else Outcome(t, true, true, InvalidId)
    case TerminateUsage => Outcome(t, true, true, UsageShown("terminate"))
    case Send(id, msg) =>
      if id !in t.entries then Outcome(t, true, true, InvalidId)
      else if io.sendOk then Outcome(t, true, true, Sent(t.entries[id].sock, msg))
      else Outcome(t, true, false, SendRaised(t.entries[id].sock, msg))
    case SendUsage => Outcome(t, true, true, UsageShown("send"))
    case Exit => Outcome(t, false, true, ShuttingDown)
    case Unknown => Outcome(t, true, true, UnknownShown)
  }

  /**
   * A run of the dispatcher over a script of inputs: the state it left, what
   * it did, and the position of the first event it did not read.
   */
  datatype Session = Session(table: Table, running: bool, alive: bool, effects: seq<Effect>, next: nat)

  /**
   * What the dispatcher loop relies on from the handling of one event: the
   * table stays valid, `running` is cleared exactly by a stopping event,
   * and the thread dies only when `sendall` raised, with `running` still
   * set.
   */
  ghost predicate Obeys(handler: (Table, Event, Io) --> Outcome)
  {
    forall u: Table, ev: Event, io: Io | Valid(u) ::
      && handler.requires(u, ev, io)
      && Valid(handler(u, ev, io).table)
      && (handler(u, ev, io).running <==> !Stops(ev))
      && (!handler(u, ev, io).alive <==> handler(u, ev, io).effect.SendRaised?)
      && (!handler(u, ev, io).alive ==> handler(u, ev, io).running)
  }

  /** What Obeys promises, for one table and event. */
  lemma ObeysAt(handler: (Table, Event, Io) --> Outcome, u: Table, ev: Event, io: Io)
    requires Obeys(handler) && Valid(u)
    ensures handler.requires(u, ev, io)
    ensures var o := handler(u, ev, io);
      && Valid(o.table) && (o.running <==> !Stops(ev))
      && (!o.alive <==> o.effect.SendRaised?) && (!o.alive ==> o.running)
  {
  }

  /** The handling of one event by handle_user_input: Step on the host it runs on. */
  function Dispatcher(host: Host): (Table, Event, Io) --> Outcome
  {
    (u: Table, ev: Event, io: Io) requires Valid(u) => Step(u, host, ev, io)
  }

  /** Step, on every host, keeps the promises the loop relies on. */
  lemma DispatcherObeys(host: Host)
    ensures Obeys(Dispatcher(host))
  {
    forall u: Table, ev: Event, io: Io | Valid(u)
      ensures Dispatcher(host).requires(u, ev, io)
      ensures Dispatcher(host)(u, ev, io) == Step(u, host, ev, io)
    {
    }
  }

  /**
   * The `while running` loop of handle_user_input (chat.py:103-171) reading
   * `script` from position `from`: events are handled in order until one
   * clears `running` or `sendall` raises, and the rest of the script is
   * never read. A stopped loop stopped at its last event, a loop still
   * running met no stopping event, and a dead one died of `sendall`.
   */
  function Loop(t: Table, handler: (Table, Event, Io) --> Outcome, script: seq<Event>, ios: seq<Io>, from: nat): (s: Session)
    requires Obeys(handler) && Valid(t) && |ios| == |script| && from <= |script|
    ensures Valid(s.table)
    ensures from <= s.next <= |script| && |s.effects| == s.next - from
    ensures s.running && s.alive ==> s.next == |script|
    ensures forall i :: from <= i < s.next - 1 ==> !Stops(script[i])
    ensures s.running ==> forall i :: from <= i < s.next ==> !Stops(script[i])
    ensures !s.running ==> from < s.next && Stops(script[s.next - 1])
    ensures !s.alive ==> s.running && from < s.next && s.effects[|s.effects| - 1].SendRaised?
    decreases |script| - from
  {
    if from == |script| then Session(t, true, true, [], from)
    else
      ObeysAt(handler, t, script[from], ios[from]);
      var o := handler(t, script[from], ios[from]);
      if !o.running || !o.alive then Session(o.table, o.running, o.alive, [o.effect], from + 1)
      else Following([o.effect], Loop(o.table, handler, script, ios, from + 1))
  }

  /**
   * handle_user_input (chat.py:101-171) over `script` from position `from`,
   * `running` set: it reads up to the first stopping event and no further,
   * and still running and alive means it read the whole script.
   */
  function Run(t: Table, host: Host, script: seq<Event>, ios: seq<Io>, from: nat): (s: Session)
    requires Valid(t) && |ios| == |script| && from <= |script|
    ensures Valid(s.table) && from <= s.next <= |script|
    ensures s.running ==> forall i :: from <= i < s.next ==> !Stops(script[i])
    ensures !s.running ==> from < s.next && Stops(script[s.next - 1])
    ensures s.running && s.alive ==> s.next == |script|
  {
    DispatcherObeys(host);
    Loop(t, Dispatcher(host), script, ios, from)
  }

  /** One pass of the loop: the first event is handled, then the loop goes on or ends. */
  lemma RunAdvances(t: Table, host: Host, script: seq<Event>, ios: seq<Io>, from: nat)
    requires Valid(t) && |ios| == |script| && from < |script|
    ensures var o := Step(t, host, script[from], ios[from]);
      Run(t, host, script, ios, from)
        == if o.running && o.alive then Following([o.effect], Run(o.table, host, script, ios, from + 1))
           else Session(o.table, o.running, o.alive, [o.effect], from + 1)
  {
    DispatcherObeys(host);
  }

  /**
   * A run that has produced `done` and reached position `from` goes on with
   * the next event: it continues, or ends there with `running` cleared, or
   * ends there with the thread dead.
   */
  lemma RunResumes(whole: Session, done: seq<Effect>, t: Table, host: Host, script: seq<Event>, ios: seq<Io>, from: nat)
    requires Valid(t) && |ios| == |script| && from < |script|
    requires whole == Following(done, Run(t, host, script, ios, from))
    ensures var o := Step(t, host, script[from], ios[from]);
      && (o.running && o.alive ==> whole == Following(done + [o.effect], Run(o.table, host, script, ios, from + 1)))
      && (!o.running ==> whole == Session(o.table, false, true, done + [o.effect], from + 1))
      && (!o.alive ==> whole == Session(o.table, true, false, done + [o.effect], from + 1))
  {
    var o := Step(t, host, script[from], ios[from]);
    RunAdvances(t, host, script, ios, from);
    if o.running && o.alive {
      FollowingFollowing(done, [o.effect], Run(o.table, host, script, ios, from + 1));
    }
  }

  /** A run with nothing left to read ends with `running` still set. */
  lemma RunEnds(t: Table, host: Host, script: seq<Event>, ios: seq<Io>, from: nat)
    requires Valid(t) && |ios| == |script| && from == |script|
    ensures Run(t, host, script, ios, from) == Session(t, true, true, [], from)
  {
    DispatcherObeys(host);
  }

  /** A session that continues after `done` effects have already happened. */
  function Following(done: seq<Effect>, s: Session): (r: Session)
    ensures r.effects == done + s.effects
  {
    Session(s.table, s.running, s.alive, done + s.effects, s.next)
  }

  lemma FollowingFollowing(first: seq<Effect>, second: seq<Effect>, s: Session)
    ensures Following(first, Following(second, s)) == Following(first + second, s)
  {
    assert first + (second + s.effects) == (first + second) + s.effects;
  }

  /** What the main loop did with one incoming connection. */
  datatype Accepted =
    | ClosedMalformed   // no colon: closed and skipped
    | Crashed           // `ValueError` ends the main loop
    | ClosedDuplicate   // the address is already in the table: closed
    | Registered(id: int)

  datatype Arrival = Arrival(table: Table, accepted: Accepted)

  /**
   * The body of the main loop for one accepted socket (chat.py:200-219):
   * read the handshake, then refuse a known address or register the peer.
   */
  function Accept(t: Table, payload: string, sock: Socket): (a: Arrival)
    requires Valid(t)
    ensures Valid(a.table)
    ensures a.accepted == ClosedMalformed <==> ':' !in payload
    ensures a.accepted == Crashed <==> ParseHandshake(payload) == Crash
    ensures !a.accepted.Registered? ==> a.table == t
    ensures a.accepted == ClosedDuplicate ==>
      var h := ParseHandshake(payload); h.Peer? && HasAddr(t, Addr(h.ip, h.port))
    ensures a.accepted.Registered? ==>
      var h := ParseHandshake(payload);
      && h.Peer? && !HasAddr(t, Addr(h.ip, h.port))
      && a.accepted.id == |t.entries| + 1
      && Stored(t, a.table, a.accepted.id, Conn(sock, Addr(h.ip, h.port)))
  {
    match ParseHandshake(payload)
    case NoColon => Arrival(t, ClosedMalformed)
    case Crash => Arrival(t, Crashed)
    case Peer(ip, port) =>
      var u := AdmitInbound(t, Conn(sock, Addr(ip, port)));
      match u.id
      case None => Arrival(t, ClosedDuplicate)
      case Some(id) => Arrival(u.table, Registered(id))
  }

  // ---------------------------------------------------------------------------
  // Properties across steps

  /** Whatever the peer sent as its handshake is the address the acceptor registers. */
  lemma AcceptRegistersSender(t: Table, ip: string, port: int, sock: Socket)
    requires Valid(t) && ':' !in ip && !HasAddr(t, Addr(ip, port))
    ensures var a := Accept(t, HandshakeText(ip, port), sock);
      && a.accepted == Registered(|t.entries| + 1)
      && a.table.entries[|t.entries| + 1] == Conn(sock, Addr(ip, port))
  {
    HandshakeRoundTrip(ip, port);
  }

  /** A second handshake from a registered address is closed and changes nothing. */
  lemma AcceptIgnoresKnownSender(t: Table, ip: string, port: int, sock: Socket)
    requires Valid(t) && ':' !in ip && HasAddr(t, Addr(ip, port))
    ensures Accept(t, HandshakeText(ip, port), sock) == Arrival(t, ClosedDuplicate)
  {
    HandshakeRoundTrip(ip, port);
  }

  /** Neither accepting nor any command ever lets two entries share an address. */
  lemma AcceptKeepsUnique(t: Table, payload: string, sock: Socket)
    requires Valid(t) && UniqueAddrs(t)
    ensures UniqueAddrs(Accept(t, payload, sock).table)
  {
    var h := ParseHandshake(payload);
    if h.Peer? {
      AdmitInboundKeepsUnique(t, Conn(sock, Addr(h.ip, h.port)));
    }
  }

  /**
   * What a command does to the table and to sockets (chat.py:115-163): a
   * `connect` whose pre-checks and dial succeed stores the dialed socket
   * under `len + 1`, and any other `connect` reports why and changes
   * nothing; `terminate` removes a present id and closes its socket,
   * `list` shows the table's rows, `send` to a present id reaches the
   * socket stored under it and a raising `sendall` ends the thread, an
   * absent id is reported, and nothing else touches the table.
   */
  lemma HandleEffects(t: Table, host: Host, cmd: Command, io: Io)
    requires Valid(t)
    ensures var o := Handle(t, host, cmd, io);
      && (cmd.Connect? ==>
            var d := ConnectToPeer(t, host, cmd.ip, cmd.port, io.dialOk);
            && (d.Dialed? ==>
                  && o.effect == Connected(|t.entries| + 1, d.addr)
                  && o.table == AdmitOutbound(t, Conn(io.dialed, d.addr)).table)
            && (d.Refused? ==> o == Outcome(t, true, true, ConnectFailed(d.why))))
      && (o.effect.Connected? ==>
            && cmd.Connect?
            && o.effect.id == |t.entries| + 1
            && Stored(t, o.table, o.effect.id, Conn(io.dialed, o.effect.addr))
            && !HasAddr(t, o.effect.addr))
      && (o.effect.Terminated? ==>
            && cmd == Terminate(o.effect.id)
            && o.effect.id in t.entries && o.effect.sock == t.entries[o.effect.id].sock
            && Dropped(t, o.table, o.effect.id))
      && (!o.effect.Connected? && !o.effect.Terminated? ==> o.table == t)
      && (o.effect.Sent? || o.effect.SendRaised? ==>
            && cmd.Send? && cmd.id in t.entries
            && o.effect.sock == t.entries[cmd.id].sock && o.effect.text == cmd.text)
      && (o.effect == InvalidId <==> (cmd.Terminate? || cmd.Send?) && cmd.id !in t.entries)
      && (cmd == List ==> o == Outcome(t, true, true, Listed(Rows(t))))
      && (cmd.Send? && cmd.id in t.entries ==>
            && o.table == t && o.running && (o.alive <==> io.sendOk)
            && o.effect == (if io.sendOk then Sent(t.entries[cmd.id].sock, cmd.text)
                            else SendRaised(t.entries[cmd.id].sock, cmd.text)))
  {
  }

  /** No command ever lets two entries share an address: `connect` refuses a known one first. */
  lemma HandleKeepsUnique(t: Table, host: Host, cmd: Command, io: Io)
    requires Valid(t) && UniqueAddrs(t)
    ensures UniqueAddrs(Handle(t, host, cmd, io).table)
  {
    var o := Handle(t, host, cmd, io);
    HandleEffects(t, host, cmd, io);
    if o.effect.Connected? {
      StoredKeepsUnique(t, o.table, o.effect.id, Conn(io.dialed, o.effect.addr));
    } else if o.effect.Terminated? {
      DroppedKeepsUnique(t, o.table, o.effect.id);
    }
  }

  /** A connection just made shows up in `list` under its id with its address. */
  lemma ConnectedIsListed(t: Table, host: Host, cmd: Command, io: Io)
    requires Valid(t) && Handle(t, host, cmd, io).effect.Connected?
    ensures var o := Handle(t, host, cmd, io);
      exists i :: 0 <= i < |Rows(o.table)| && Rows(o.table)[i] == (o.effect.id, o.effect.addr)
  {
    var o := Handle(t, host, cmd, io);
    HandleEffects(t, host, cmd, io);
    ListedIffLive(o.table, o.effect.id);
  }

  /**
   * After a line recognised as `terminate n` (as `terminate <n>` typed from
   * the `list` output is, by Commands.TerminateLine) succeeds, a `send` to
   * `n` finds no connection and sends nothing.
   */
  lemma TerminateThenSendInvalid(t: Table, host: Host, n: int, line: string, text: string, io1: Io, io2: Io)
    requires Valid(t) && n in t.entries
    requires CommandOf(line) == Terminate(n)
    requires CommandOf(text).Send? && CommandOf(text).id == n
    ensures var o1 := Step(t, host, Line(line), io1);
      && o1.effect == Terminated(n, t.entries[n].sock)
      && Step(o1.table, host, Line(text), io2) == Outcome(o1.table, true, true, InvalidId)
  {
    var o1 := Step(t, host, Line(line), io1);
    assert o1 == Handle(t, host, Terminate(n), io1);
    TerminateThenSendHandled(t, host, n, CommandOf(text).text, io1, io2);
    assert Step(o1.table, host, Line(text), io2) == Handle(o1.table, host, CommandOf(text), io2);
  }

  lemma TerminateThenSendHandled(t: Table, host: Host, n: int, msg: string, io1: Io, io2: Io)
    requires Valid(t) && n in t.entries
    ensures var o1 := Handle(t, host, Terminate(n), io1);
      && o1 == Outcome(TerminateId(t, n), true, true, Terminated(n, t.entries[n].sock))
      && Handle(o1.table, host, Send(n, msg), io2) == Outcome(o1.table, true, true, InvalidId)
  {
    assert n !in TerminateId(t, n).entries;
  }

  /** A `send` line delivers its whole message, inner spaces included, to the socket stored under the id. */
  lemma SendStep(t: Table, host: Host, g0: string, g1: string, idText: string, g2: string, text: string, g3: string, id: int, io: Io)
    requires Valid(t) && id in t.entries && io.sendOk
    requires AllSpace(g0) && AllSpace(g1) && AllSpace(g2) && AllSpace(g3) && g2 != []
    requires idText != [] && NoSpace(idText) && ParseInt(idText) == Some(id)
    requires text != [] && !IsSpace(text[0]) && !IsSpace(text[|text| - 1])
    ensures Step(t, host, Line(g0 + "send " + g1 + idText + g2 + text + g3), io)
      == Outcome(t, true, true, Sent(t.entries[id].sock, text))
  {
    SendKeepsText(g0, g1, idText, g2, text, g3, id);
  }

  /**
   * A `send` line whose `sendall` raises ends the dispatcher thread: the
   * exception is not caught, so the thread dies with `running` still set
   * and the table unchanged.
   */
  lemma SendRaisedStep(t: Table, host: Host, g0: string, g1: string, idText: string, g2: string, text: string, g3: string, id: int, io: Io)
    requires Valid(t) && id in t.entries && !io.sendOk
    requires AllSpace(g0) && AllSpace(g1) && AllSpace(g2) && AllSpace(g3) && g2 != []
    requires idText != [] && NoSpace(idText) && ParseInt(idText) == Some(id)
    requires text != [] && !IsSpace(text[0]) && !IsSpace(text[|text| - 1])
    ensures var o := Step(t, host, Line(g0 + "send " + g1 + idText + g2 + text + g3), io);
      && o == Outcome(t, true, false, SendRaised(t.entries[id].sock, text))
      && o.running && !o.alive
  {
    SendKeepsText(g0, g1, idText, g2, text, g3, id);
  }

  /** Connecting to the host's own listen address never dials and never changes the table. */
  lemma ConnectSelfRefused(t: Table, host: Host, io: Io)
    requires Valid(t) && host.isIp(host.myIp)
    requires host.myIp != [] && NoSpace(host.myIp)
    ensures Step(t, host, Line("connect " + host.myIp + " " + ShowInt(host.myPort)), io)
      == Outcome(t, true, true, ConnectFailed(SelfConnect))
  {
    var portText := ShowInt(host.myPort);
    ParseShowInt(host.myPort);
    ConnectLine(host.myIp, portText);
  }

  /**
   * A typed `connect <ip> <port>` to a new, valid address other than the
   * host's own, with a dial that succeeds, registers the dialed socket
   * under `len + 1` with the address as typed.
   */
  lemma ConnectStep(t: Table, host: Host, ip: string, portText: string, p: int, io: Io)
    requires Valid(t) && ip != [] && NoSpace(ip) && portText != [] && NoSpace(portText)
    requires host.isIp(ip) && ParseInt(portText) == Some(p)
    requires Addr(ip, p) != Addr(host.myIp, host.myPort) && !HasAddr(t, Addr(ip, p)) && io.dialOk
    ensures Step(t, host, Line("connect " + ip + " " + portText), io)
      == Outcome(AdmitOutbound(t, Conn(io.dialed, Addr(ip, p))).table, true, true, Connected(|t.entries| + 1, Addr(ip, p)))
  {
    ConnectLine(ip, portText);
    ConnectHandled(t, host, ip, portText, p, io);
    assert Step(t, host, Line("connect " + ip + " " + portText), io) == Handle(t, host, Connect(ip, portText), io);
  }

  lemma ConnectHandled(t: Table, host: Host, ip: string, portText: string, p: int, io: Io)
    requires Valid(t) && host.isIp(ip) && ParseInt(portText) == Some(p)
    ensures Addr(ip, p) != Addr(host.myIp, host.myPort) && !HasAddr(t, Addr(ip, p)) && io.dialOk ==>
      Handle(t, host, Connect(ip, portText), io)
        == Outcome(AdmitOutbound(t, Conn(io.dialed, Addr(ip, p))).table, true, true, Connected(|t.entries| + 1, Addr(ip, p)))
    ensures Addr(ip, p) != Addr(host.myIp, host.myPort) && HasAddr(t, Addr(ip, p)) ==>
      Handle(t, host, Connect(ip, portText), io) == Outcome(t, true, true, ConnectFailed(AlreadyConnected))
  {
    var u := AdmitOutbound(t, Conn(io.dialed, Addr(ip, p)));
    assert u.id == Some(|t.entries| + 1);
  }

  /**
   * A typed `connect` to an address already in the table is refused before
   * any dial: the outcome is the same whether or not the peer would answer.
   */
  lemma ConnectKnownRefused(t: Table, host: Host, ip: string, portText: string, p: int, io: Io)
    requires Valid(t) && ip != [] && NoSpace(ip) && portText != [] && NoSpace(portText)
    requires host.isIp(ip) && ParseInt(portText) == Some(p)
    requires Addr(ip, p) != Addr(host.myIp, host.myPort) && HasAddr(t, Addr(ip, p))
    ensures Step(t, host, Line("connect " + ip + " " + portText), io)
      == Outcome(t, true, true, ConnectFailed(AlreadyConnected))
  {
    ConnectLine(ip, portText);
    ConnectHandled(t, host, ip, portText, p, io);
    assert Step(t, host, Line("connect " + ip + " " + portText), io) == Handle(t, host, Connect(ip, portText), io);
  }

  /** Once an event clears `running`, the dispatcher reads nothing after it. */
  lemma StopEndsRun(t: Table, host: Host, script: seq<Event>, ios: seq<Io>, k: nat)
    requires Valid(t) && |ios| == |script|
    requires k < |script| && Stops(script[k])
    ensures Run(t, host, script, ios, 0).next <= k + 1
  {
  }
}
