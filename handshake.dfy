/**
 * The one-shot identification text a dialing peer sends right after
 * connecting: its own listen address written as `ip:port` (chat.py:90-91),
 * and how the accepting side reads it back (chat.py:201-207).
 */
module Handshake {
  import opened Wrappers
  import opened PyText

  /** What the accept loop makes of a handshake payload. */
  datatype Handshake =
    | NoColon                         // closed and skipped (chat.py:202-205)
    | Crash                           // `ValueError` escapes the accept loop
    | Peer(ip: string, port: int)     // the dialer's listen address

  /**
   * `if ":" not in p` / `peer_ip, peer_port = p.split(":")` /
   * `int(peer_port)`: a second colon makes the unpacking fail and a bad port
   * makes `int` fail, and neither `ValueError` is caught.
   */
  function ParseHandshake(payload: string): (h: Handshake)
    ensures h.NoColon? <==> ':' !in payload
    ensures h.Peer? ==> Count(payload, ':') == 1 && ':' !in h.ip
    ensures h.Peer? ==> |h.ip| < |payload| && payload[..|h.ip|] == h.ip && payload[|h.ip|] == ':'
    ensures h.Peer? ==> ParseInt(payload[|h.ip| + 1..]) == Some(h.port)
  {
    if ':' !in payload then NoColon
    else
      var parts := SplitOn(payload, ':');
      if |parts| != 2 then Crash
      else
        match ParseInt(parts[1])
        case None => Crash
        case Some(port) =>
          JoinSplit(payload, ':');
          assert payload == parts[0] + ":" + parts[1];
          assert payload[..|parts[0]|] == parts[0];
          assert payload[|parts[0]| + 1..] == parts[1];
          Peer(parts[0], port)
  }

  /**
   * The payload the dialing side sends: `f"{ip}:{port}"`. When the ip has
   * no colon, `split(":")` cuts it back into the two fields.
   */
  function HandshakeText(ip: string, port: int): (s: string)
    ensures ':' !in ip ==> SplitOn(s, ':') == [ip, ShowInt(port)]
  {
    var text := ShowInt(port);
    assert ':' !in text by {
      forall k | 0 <= k < |text| ensures text[k] != ':' {
        assert IsDigit(text[k]) || text[k] == '-';
      }
    }
    assert JoinWith([ip, text], ':') == ip + ":" + text;
    if ':' in ip then ip + ":" + text
    else
      SplitJoin([ip, text], ':');
      ip + ":" + text
  }

  /**
   * An address whose ip has no colon survives the trip through the wire
   * text: the acceptor registers exactly the address the dialer sent.
   */
  lemma HandshakeRoundTrip(ip: string, port: int)
    requires ':' !in ip
    ensures ParseHandshake(HandshakeText(ip, port)) == Peer(ip, port)
  {
    ParseShowInt(port);
  }

  /**
   * A payload with exactly one colon names the text before it as the ip;
   * the accept loop survives it only when the text after it is an integer.
   */
  lemma OneColon(payload: string, i: nat)
    requires i < |payload| && payload[i] == ':'
    requires ':' !in payload[..i] && ':' !in payload[i + 1..]
    ensures ParseHandshake(payload) == match ParseInt(payload[i + 1..])
                                        case Some(port) => Peer(payload[..i], port)
                                        case None => Crash
  {
    var a, b := payload[..i], payload[i + 1..];
    assert payload == JoinWith([a, b], ':');
    SplitJoin([a, b], ':');
  }

  /** Two or more colons always crash the accept loop. */
  lemma {:induction false} ManyColons(payload: string)
    requires Count(payload, ':') >= 2
    ensures ParseHandshake(payload) == Crash
  {
    assert ':' in payload;
  }
}
