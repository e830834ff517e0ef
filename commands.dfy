/**
 * Recognition of one line typed at the `>>>` prompt (chat.py:105-169): the
 * line is stripped, then compared exactly (`help`, `myip`, `myport`, `list`,
 * `exit`) or by prefix (`connect `, `terminate `, `send `, each with a
 * literal space), and the arguments are counted and parsed.
 */
module Commands {
  import opened Wrappers
  import opened PyText

  datatype Command =
    | Help
    | MyIp
    | MyPort
    | Connect(ip: string, port: string)   // both tokens as typed; connect_to_peer parses them
    | ConnectUsage
    | List
    | Terminate(id: int)
    | TerminateUsage
    | Send(id: int, text: string)
    | SendUsage
    | Exit
    | Unknown

  predicate StartsWith(s: string, prefix: string)
  {
    |prefix| <= |s| && s[..|prefix|] == prefix
  }

  /**
   * The if/elif chain of handle_user_input (chat.py:109-169), in its order,
   * on the command `input(">>> ").strip()` produced. A recognised
   * `connect`, `terminate` or `send` carries the tokens `split()` cut from
   * the command; MalformedIsUsage gives the converse.
   */
  function ParseCommand(cmd: string): (c: Command)
    ensures c == Help <==> cmd == "help"
    ensures c == Exit <==> cmd == "exit"
    ensures c == List <==> cmd == "list"
    ensures c.Connect? ==> StartsWith(cmd, "connect ")
    ensures c.Connect? ==> c.ip != [] && NoSpace(c.ip) && c.port != [] && NoSpace(c.port)
    ensures c.Connect? ==> var parts := SplitWs(cmd, -1); |parts| == 3 && c.ip == parts[1] && c.port == parts[2]
    ensures c.Terminate? ==> StartsWith(cmd, "terminate ")
    ensures c.Terminate? ==> var parts := SplitWs(cmd, -1); |parts| == 2 && ParseInt(parts[1]) == Some(c.id)
    ensures c.Send? ==> StartsWith(cmd, "send ")
    ensures c.Send? ==> var parts := SplitWs(cmd, 2); |parts| == 3 && ParseInt(parts[1]) == Some(c.id) && c.text == parts[2]
    ensures c.Send? ==> c.text != [] && !IsSpace(c.text[0])
  {
    if cmd == "help" then Help
    else if cmd == "myip" then MyIp
    else if cmd == "myport" then MyPort
    else if StartsWith(cmd, "connect ") then ConnectArgs(cmd)
    else if cmd == "list" then List
    else if StartsWith(cmd, "terminate ") then TerminateArgs(cmd)
    else if StartsWith(cmd, "send ") then SendArgs(cmd)
    else if cmd == "exit" then Exit
    else Unknown
  }

  /**
   * The command a typed line stands for: `input(">>> ").strip()` and then
   * the chain. Whitespace around the line never matters (CommandOfPadded).
   */
  function CommandOf(line: string): (c: Command)
    ensures c == Exit <==> Strip(line) == "exit"
    ensures c == Help <==> Strip(line) == "help"
  {
    ParseCommand(Strip(line))
  }

  /** `parts = command.split()`: three tokens give the address, any other count the usage text. */
  function ConnectArgs(cmd: string): (c: Command)
    ensures var parts := SplitWs(cmd, -1);
      && (c.Connect? <==> |parts| == 3)
      && (c.Connect? ==> c.ip == parts[1] && c.port == parts[2])
      && (!c.Connect? ==> c == ConnectUsage)
  {
    var parts := SplitWs(cmd, -1);
    if |parts| == 3 then Connect(parts[1], parts[2]) else ConnectUsage
  }

  /**
   * `parts = command.split()`: exactly two tokens, the second an integer,
   * give that id; a wrong count or a `ValueError` gives the usage text.
   */
  function TerminateArgs(cmd: string): (c: Command)
    ensures var parts := SplitWs(cmd, -1);
      && (c.Terminate? <==> |parts| == 2 && ParseInt(parts[1]).Some?)
      && (c.Terminate? ==> ParseInt(parts[1]) == Some(c.id))
      && (!c.Terminate? ==> c == TerminateUsage)
  {
    var parts := SplitWs(cmd, -1);
    if |parts| == 2 then
      match ParseInt(parts[1])
      case Some(id) => Terminate(id)
      case None => TerminateUsage
    else TerminateUsage
  }

  /**
   * `parts = command.split(maxsplit=2)`: three parts, the second an
   * integer, give that id and the third part as the message; otherwise the
   * usage text.
   */
  function SendArgs(cmd: string): (c: Command)
    ensures var parts := SplitWs(cmd, 2);
      && (c.Send? <==> |parts| == 3 && ParseInt(parts[1]).Some?)
      && (c.Send? ==> ParseInt(parts[1]) == Some(c.id) && c.text == parts[2])
      && (!c.Send? ==> c == SendUsage)
  {
    var parts := SplitWs(cmd, 2);
    if |parts| == 3 then
      match ParseInt(parts[1])
      case Some(id) => Send(id, parts[2])
      case None => SendUsage
    else SendUsage
  }

  /**
   * A `connect `, `terminate ` or `send ` command with the wrong number of
   * tokens, or an id `int()` rejects, shows its usage text and nothing
   * else; a well-formed one is recognised.
   */
  lemma MalformedIsUsage(cmd: string)
    ensures StartsWith(cmd, "connect ") ==>
      (ParseCommand(cmd) == ConnectUsage <==> |SplitWs(cmd, -1)| != 3)
    ensures StartsWith(cmd, "terminate ") ==> var parts := SplitWs(cmd, -1);
      (ParseCommand(cmd) == TerminateUsage <==> !(|parts| == 2 && ParseInt(parts[1]).Some?))
    ensures StartsWith(cmd, "send ") ==> var parts := SplitWs(cmd, 2);
      (ParseCommand(cmd) == SendUsage <==> !(|parts| == 3 && ParseInt(parts[1]).Some?))
  {
    ParsePrefixed(cmd);
  }

  /** Whitespace typed around a command never changes what it is recognised as. */
  lemma CommandOfPadded(g1: string, line: string, g2: string)
    requires AllSpace(g1) && AllSpace(g2)
    ensures CommandOf(g1 + line + g2) == CommandOf(line)
  {
    StripAbsorbs(g1, line, g2);
  }

  /** Which branch a command takes is decided by its first characters. */
  lemma ParsePrefixed(cmd: string)
    ensures StartsWith(cmd, "connect ") ==> ParseCommand(cmd) == ConnectArgs(cmd)
    ensures StartsWith(cmd, "terminate ") ==> ParseCommand(cmd) == TerminateArgs(cmd)
    ensures StartsWith(cmd, "send ") ==> ParseCommand(cmd) == SendArgs(cmd)
  {
    if StartsWith(cmd, "connect ") {
      assert cmd[0] == 'c';
    }
    if StartsWith(cmd, "terminate ") {
      assert cmd[0] == 't' && cmd[1] == 'e';
    }
    if StartsWith(cmd, "send ") {
      assert cmd[0] == 's';
    }
  }

  /** `send <id> <text>` with the text after the id's trailing whitespace. */
  lemma SendArgsOf(g1: string, idText: string, g2: string, text: string, id: int)
    requires AllSpace(g1) && AllSpace(g2) && g2 != []
    requires idText != [] && NoSpace(idText) && ParseInt(idText) == Some(id)
    requires text != [] && !IsSpace(text[0])
    ensures ParseCommand("send" + ((" " + g1) + (idText + (g2 + text)))) == Send(id, text)
  {
    var cmd := "send" + ((" " + g1) + (idText + (g2 + text)));
    assert SendArgs(cmd) == Send(id, text) by {
      assert AllSpace(" " + g1);
      SplitWsTwoAndRest("send", " " + g1, idText, g2, text);
    }
    assert StartsWith(cmd, "send ") by {
      assert cmd[..5] == "send " + [];
    }
    ParsePrefixed(cmd);
  }

  /**
   * `send` splits at most twice: the message is everything after the id
   * token and the whitespace that follows it, inner whitespace included.
   */
  lemma SendKeepsText(g0: string, g1: string, idText: string, g2: string, text: string, g3: string, id: int)
    requires AllSpace(g0) && AllSpace(g1) && AllSpace(g2) && AllSpace(g3) && g2 != []
    requires idText != [] && NoSpace(idText) && ParseInt(idText) == Some(id)
    requires text != [] && !IsSpace(text[0]) && !IsSpace(text[|text| - 1])
    ensures CommandOf(g0 + "send " + g1 + idText + g2 + text + g3) == Send(id, text)
  {
    var cmd := "send" + ((" " + g1) + (idText + (g2 + text)));
    SendLineShape(g0, g1, idText, g2, text, g3);
    assert cmd[|cmd| - 1] == text[|text| - 1];
    StripPadded(g0, cmd, g3);
    SendArgsOf(g1, idText, g2, text, id);
  }

  /** Regrouping of a typed `send` line around its command. */
  lemma SendLineShape(g0: string, g1: string, idText: string, g2: string, text: string, g3: string)
    ensures g0 + "send " + g1 + idText + g2 + text + g3
      == g0 + ("send" + ((" " + g1) + (idText + (g2 + text)))) + g3
  {
    var tail := idText + (g2 + text);
    assert "send " + g1 == "send" + (" " + g1) by {
      assert "send " == "send" + " ";
    }
    assert "send " + g1 + idText + g2 + text == "send" + ((" " + g1) + tail) by {
      assert "send " + g1 + idText + g2 + text == ("send " + g1) + tail;
    }
    assert g0 + "send " + g1 + idText + g2 + text == g0 + ("send" + ((" " + g1) + tail));
  }

  /** Whatever `send` delivers is the tail of the stripped command. */
  lemma SendTextIsTail(cmd: string)
    requires ParseCommand(cmd).Send?
    ensures var text := ParseCommand(cmd).text;
      |text| <= |cmd| && cmd[|cmd| - |text|..] == text
  {
    ParsePrefixed(cmd);
    SplitWsLastIsSuffix(cmd, 2);
  }

  /** `terminate <token>` with an integer token names that id. */
  lemma TerminateArgsOf(idText: string, id: int)
    requires idText != [] && NoSpace(idText) && ParseInt(idText) == Some(id)
    ensures ParseCommand("terminate" + (" " + idText)) == Terminate(id)
  {
    var cmd := "terminate" + (" " + idText);
    assert TerminateArgs(cmd) == Terminate(id) by {
      SplitWsTwoWords("terminate", " ", idText);
    }
    assert StartsWith(cmd, "terminate ") by {
      assert cmd[..10] == "terminate " + [];
    }
    ParsePrefixed(cmd);
  }

  /** The typed line `terminate <token>` with an integer token is recognised with that id. */
  lemma TerminateOf(idText: string, id: int)
    requires idText != [] && NoSpace(idText) && ParseInt(idText) == Some(id)
    ensures CommandOf("terminate " + idText) == Terminate(id)
  {
    var cmd := "terminate" + (" " + idText);
    assert cmd == "terminate " + idText;
    assert Strip(cmd) == cmd by {
      assert cmd[|cmd| - 1] == idText[|idText| - 1];
      StripUnpadded(cmd);
    }
    TerminateArgsOf(idText, id);
  }

  /** `terminate <n>`, as the `list` output shows `n`, is recognised with that id. */
  lemma TerminateLine(id: int)
    ensures CommandOf("terminate " + ShowInt(id)) == Terminate(id)
  {
    ParseShowInt(id);
    TerminateOf(ShowInt(id), id);
  }

  /** `connect <ip> <port>` with single spaces names both tokens unchanged. */
  lemma ConnectArgsOf(ip: string, port: string)
    requires ip != [] && NoSpace(ip) && port != [] && NoSpace(port)
    ensures ParseCommand("connect" + (" " + (ip + (" " + port)))) == Connect(ip, port)
  {
    var cmd := "connect" + (" " + (ip + (" " + port)));
    assert ConnectArgs(cmd) == Connect(ip, port) by {
      SplitWsThreeWords("connect", " ", ip, " ", port);
    }
    assert StartsWith(cmd, "connect ") by {
      assert cmd[..8] == "connect " + [];
    }
    ParsePrefixed(cmd);
  }

  /** The typed line `connect <ip> <port>` hands both tokens over unchanged. */
  lemma ConnectLine(ip: string, port: string)
    requires ip != [] && NoSpace(ip) && port != [] && NoSpace(port)
    ensures CommandOf("connect " + ip + " " + port) == Connect(ip, port)
  {
    var cmd := "connect" + (" " + (ip + (" " + port)));
    assert cmd == "connect " + ip + " " + port;
    assert Strip(cmd) == cmd by {
      assert cmd[|cmd| - 1] == port[|port| - 1];
      StripUnpadded(cmd);
    }
    ConnectArgsOf(ip, port);
  }
}
