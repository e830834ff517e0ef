/**
 * The running program's shared state, updated in place: the dict
 * `active_connections` and the flag `running` (chat.py:7-8). Each method is
 * one of the places chat.py changes or scans that state, and its contract
 * ties the new state to the value-level operation of Registry or Dispatch.
 */
module Node {
  import opened Wrappers
  import PyText
  import opened Handshake
  import opened Commands
  import opened Registry
  import opened Dispatch

  class ChatNode {
    /** The dict's entries, by connection id. */
    var entries: map<int, Conn>
    /** The dict's keys in iteration order. */
    var order: seq<int>
    /** The global `running` flag. */
    var running: bool

    function Model(): Table
      reads this
    {
      Table(entries, order)
    }

    ghost predicate Valid()
      reads this
    {
      Registry.Valid(Model())
    }

    /** Start-up: an empty table and `running = True`. */
    constructor ()
      ensures Valid() && Model() == Empty() && running
    {
      entries := map[];
      order := [];
      running := true;
    }

    /** `active_connections[id] = c`. */
    method Store(id: int, c: Conn)
      requires Valid() && id >= 1
      modifies this
      ensures Valid() && Model() == Assign(old(Model()), id, c) && running == old(running)
    {
      if id !in entries {
        order := order + [id];
      }
      entries := entries[id := c];
    }

    /** `del active_connections[id]`. */
    method Drop(id: int)
      requires Valid() && id in entries
      modifies this
      ensures Valid() && Model() == Delete(old(Model()), id) && running == old(running)
    {
      entries := entries - {id};
      order := Without(order, id);
    }

    /**
     * The duplicate scan over `active_connections.items()` of
     * connect_to_peer (chat.py:82-85) and of the accept loop
     * (chat.py:210-214): it stops at the first entry with address `a`.
     */
    method HasAddress(a: Addr) returns (found: bool)
      requires Valid()
      ensures found <==> HasAddr(Model(), a)
    {
      var i := 0;
      while i < |order|
        invariant 0 <= i <= |order|
        invariant forall j :: 0 <= j < i ==> entries[order[j]].addr != a
      {
        if entries[order[i]].addr == a {
          var k := order[i];
          assert k in Model().entries && Model().entries[k].addr == a;
          assert HasAddr(Model(), a);
          return true;
        }
        i := i + 1;
      }
      forall k | k in entries
        ensures entries[k].addr != a
      {
        var j :| 0 <= j < |order| && order[j] == k;
      }
      assert !HasAddr(Model(), a);
      return false;
    }

    /** connect_to_peer (chat.py:73-98): the checks in their order, then the dial. */
    method ConnectToPeer(host: Host, ip: string, port: string, dialOk: bool) returns (d: Dial)
      requires Valid()
      ensures d == Dispatch.ConnectToPeer(Model(), host, ip, port, dialOk)
    {
      if !host.isIp(ip) {
        return Refused(BadAddress);
      }
      match PyText.ParseInt(port) {
        case None =>
          return Refused(BadAddress);
        case Some(p) =>
          if host.myIp == ip && host.myPort == p {
            return Refused(SelfConnect);
          }
          var known := HasAddress(Addr(ip, p));
          if known {
            return Refused(AlreadyConnected);
          }
          if !dialOk {
            return Refused(DialFailed);
          }
          return Dialed(Addr(ip, p));
      }
    }

    /**
     * One accepted socket in the main loop (chat.py:200-219): the handshake
     * is read, a known address is closed, a new one is registered under
     * `len + 1`.
     */
    method AcceptPeer(payload: string, sock: Socket) returns (accepted: Accepted)
      requires Valid()
      modifies this
      ensures Valid() && running == old(running)
      ensures Model() == Accept(old(Model()), payload, sock).table
      ensures accepted == Accept(old(Model()), payload, sock).accepted
    {
      match ParseHandshake(payload) {
        case NoColon =>
          return ClosedMalformed;
        case Crash =>
          return Crashed;
        case Peer(ip, port) =>
          var known := HasAddress(Addr(ip, port));
          if known {
            return ClosedDuplicate;
          }
          var id := |entries| + 1;
          Store(id, Conn(sock, Addr(ip, port)));
          return Registered(id);
      }
    }

    /**
     * The `finally` block of a reader (chat.py:61-69): find the first entry
     * in iteration order whose address is `a`, stop there, and delete it
     * when the id found is truthy.
     */
    method ReaderCleanup(a: Addr) returns (removed: Option<int>)
      requires Valid()
      modifies this
      ensures Valid() && running == old(running)
      ensures Model() == RemoveByAddr(old(Model()), a).table
      ensures removed == RemoveByAddr(old(Model()), a).id
    {
      var toRemove: Option<int> := None;
      ghost var at := 0;
      var i := 0;
      while i < |order|
        invariant 0 <= i <= |order|
        invariant toRemove.None?
        invariant forall j :: 0 <= j < i ==> entries[order[j]].addr != a
      {
        if entries[order[i]].addr == a {
          toRemove := Some(order[i]);
          at := i;
          break;
        }
        i := i + 1;
      }
      if toRemove.Some? {
        assert IsFirstMatch(order, entries, a, at);
        FirstMatchIsFirst(order, entries, a, at);
      }
      // `if conn_to_remove:` is false for None and for id 0
      if toRemove.Some? && toRemove.value != 0 {
        Drop(toRemove.value);
        removed := toRemove;
      } else {
        removed := None;
      }
    }

    /** `list` (chat.py:127-131): one row per entry, in iteration order. */
    method ListRows() returns (rows: seq<(int, Addr)>)
      requires Valid()
      ensures rows == Rows(Model())
    {
      OrderLength(Model());
      rows := [];
      var i := 0;
      while i < |order|
        invariant 0 <= i <= |order|
        invariant |rows| == i
        invariant forall j :: 0 <= j < i ==> rows[j] == (order[j], entries[order[j]].addr)
      {
        rows := rows + [(order[i], entries[order[i]].addr)];
        i := i + 1;
      }
    }

    /** One pass of the dispatcher loop's body (chat.py:104-171). */
    method HandleEvent(host: Host, ev: Event, io: Io) returns (effect: Effect, alive: bool)
      requires Valid()
      modifies this
      ensures Valid()
      ensures var o := Step(old(Model()), host, ev, io);
        && Model() == o.table && effect == o.effect && alive == o.alive
        && running == (old(running) && o.running)
    {
      match ev {
        case EndOfInput =>
          running := false;
          effect, alive := InputEnded, true;
        case Interrupt =>
          running := false;
          effect, alive := InputEnded, true;
        case Line(text) =>
          var command := PyText.Strip(text);
          effect, alive := HandleCommand(host, ParseCommand(command), io);
      }
    }

    /** The branch of the if/elif chain for one recognised command (chat.py:109-169). */
    method HandleCommand(host: Host, cmd: Command, io: Io) returns (effect: Effect, alive: bool)
      requires Valid()
      modifies this
      ensures Valid()
      ensures var o := Handle(old(Model()), host, cmd, io);
        && Model() == o.table && effect == o.effect && alive == o.alive
        && running == (old(running) && o.running)
    {
      alive := true;
      match cmd {
        case Help =>
          effect := HelpShown;
        case MyIp =>
          effect := IpShown(host.myIp);
        case MyPort =>
          effect := PortShown(host.myPort);
        case Connect(ip, port) =>
          var d := ConnectToPeer(host, ip, port, io.dialOk);
          match d {
            case Refused(why) =>
              effect := ConnectFailed(why);
            case Dialed(addr) =>
              var id := |entries| + 1;
              Store(id, Conn(io.dialed, addr));
              effect := Connected(id, addr);
          }
        case ConnectUsage =>
          effect := UsageShown("connect");
        case List =>
          var rows := ListRows();
          effect := Listed(rows);
        case Terminate(id) =>
          if id in entries {
            var sock := entries[id].sock;
            Drop(id);
            effect := Terminated(id, sock);
          } else {
            effect := InvalidId;
          }
        case TerminateUsage =>
          effect := UsageShown("terminate");
        case Send(id, msg) =>
          if id in entries {
            var sock := entries[id].sock;
            if io.sendOk {
              effect := Sent(sock, msg);
            } else {
              effect := SendRaised(sock, msg);
              alive := false;
            }
          } else {
            effect := InvalidId;
          }
        case SendUsage =>
          effect := UsageShown("send");
        case Exit =>
          running := false;
          effect := ShuttingDown;
        case Unknown =>
          effect := UnknownShown;
      }
    }

    /**
     * handle_user_input (chat.py:101-171): while `running`, read one event
     * and handle it; an exception other than `EOFError` and
     * `KeyboardInterrupt` ends the thread with `running` still set.
     */
    method HandleUserInput(host: Host, script: seq<Event>, ios: seq<Io>) returns (effects: seq<Effect>, alive: bool)
      requires Valid() && |ios| == |script|
      modifies this
      ensures Valid()
      ensures old(running) ==>
        (var s := Run(old(Model()), host, script, ios, 0);
         Model() == s.table && running == s.running && alive == s.alive && effects == s.effects)
      ensures !old(running) ==> Model() == old(Model()) && !running && alive && effects == []
    {
      effects := [];
      alive := true;
      if !running {
        return;
      }
      ghost var whole := Run(Model(), host, script, ios, 0);
      var i := 0;
      while running && i < |script|
        invariant Valid() && 0 <= i <= |script| && |effects| == i
        invariant running ==> whole == Following(effects, Run(Model(), host, script, ios, i))
        invariant !running ==> whole == Session(Model(), false, true, effects, i)
      {
        var effect, ok := NextEvent(host, script, ios, i, whole, effects);
        effects := effects + [effect];
        i := i + 1;
        if !ok {
          alive := false;
          return;
        }
      }
      if running {
        RunEnds(Model(), host, script, ios, i);
      }
    }

    /**
     * One pass of the `while running` loop of handle_user_input, reading
     * the event at position `i` of a run that has produced `done` so far.
     */
    method NextEvent(host: Host, script: seq<Event>, ios: seq<Io>, i: nat, ghost whole: Session, ghost done: seq<Effect>)
      returns (effect: Effect, ok: bool)
      requires Valid() && running && |ios| == |script| && i < |script|
      requires whole == Following(done, Run(Model(), host, script, ios, i))
      modifies this
      ensures Valid()
      ensures running && ok ==> whole == Following(done + [effect], Run(Model(), host, script, ios, i + 1))
      ensures !running ==> ok && whole == Session(Model(), false, true, done + [effect], i + 1)
      ensures !ok ==> running && whole == Session(Model(), true, false, done + [effect], i + 1)
    {
      RunResumes(whole, done, Model(), host, script, ios, i);
      effect, ok := HandleEvent(host, script[i], ios[i]);
    }
  }
}
