/**
 * The connection table `active_connections` of chat.py (chat.py:8) as a
 * value: a dict from connection id to `(socket, (ip, port))`, together with
 * the insertion order in which Python iterates it. The functions here say
 * what each in-place update of the dict does; the class in node.dfy performs
 * them step by step and is proved against them.
 */
module Registry {
  import opened Wrappers

  /** A peer's listen address, `(ip, port)`. */
  datatype Addr = Addr(ip: string, port: int)

  /** An opaque socket handle; sockets themselves are outside the model. */
  datatype Socket = Socket(handle: nat)

  /** One value of the dict: `(socket, (ip, port))`. */
  datatype Conn = Conn(sock: Socket, addr: Addr)

  /** The dict's entries and its keys in iteration (first-insertion) order. */
  datatype Table = Table(entries: map<int, Conn>, order: seq<int>)

  predicate Distinct(s: seq<int>)
  {
    forall i, j :: 0 <= i < j < |s| ==> s[i] != s[j]
  }

  /**
   * The order lists every key exactly once, as a Python dict's iteration
   * does, and every id is positive, as `len(active_connections) + 1` is.
   */
  ghost predicate Valid(t: Table)
  {
    && Distinct(t.order)
    && (forall k :: k in t.entries <==> k in t.order)
    && (forall i :: 0 <= i < |t.order| ==> t.order[i] in t.entries)
    && (forall k :: k in t.entries ==> k >= 1)
  }

  /** The table at start-up: `active_connections = {}`. */
  function Empty(): (t: Table)
    ensures Valid(t) && t.entries == map[]
  {
    Table(map[], [])
  }

  /**
   * Some entry has address `a`: what both duplicate scans (chat.py:82-85,
   * chat.py:210-214) find when they walk the entries in iteration order.
   */
  predicate HasAddr(t: Table, a: Addr)
    requires Valid(t)
    ensures HasAddr(t, a) <==> exists i :: 0 <= i < |t.order| && t.entries[t.order[i]].addr == a
  {
    exists k :: k in t.entries && t.entries[k].addr == a
  }

  /** No two entries share an address. */
  ghost predicate UniqueAddrs(t: Table)
  {
    forall j, k :: j in t.entries && k in t.entries && j != k ==> t.entries[j].addr != t.entries[k].addr
  }

  // ---------------------------------------------------------------------------
  // Sizes

  /** The ids 1..n. */
  function Ids(n: nat): (r: set<int>)
    ensures forall k :: k in r <==> 1 <= k <= n
  {
    if n == 0 then {} else Ids(n - 1) + {n}
  }

  lemma {:induction false} IdsCard(n: nat)
    ensures |Ids(n)| == n
  {
    if n > 0 {
      IdsCard(n - 1);
    }
  }

  lemma {:induction false} DistinctCard(s: seq<int>)
    requires Distinct(s)
    ensures |set x | x in s| == |s|
  {
    if s != [] {
      var last := s[|s| - 1];
      var init := s[..|s| - 1];
      DistinctCard(init);
      assert (set x | x in s) == (set x | x in init) + {last};
      assert last !in init;
    }
  }

  /** The order is exactly as long as the dict: `len()` counts the listed ids. */
  lemma OrderLength(t: Table)
    requires Valid(t)
    ensures |t.order| == |t.entries|
  {
    DistinctCard(t.order);
    var listed := set x | x in t.order;
    forall k
      ensures k in t.entries.Keys <==> k in listed
    {
    }
    assert t.entries.Keys == listed;
  }

  // ---------------------------------------------------------------------------
  // The dict's own operations

  /**
   * `d.pop(x)` on the order: `x` goes and the rest stay; WithoutCutsOne
   * shows the rest keep their relative order.
   */
  function Without(s: seq<int>, x: int): (r: seq<int>)
    ensures forall k :: k in r <==> k in s && k != x
    ensures Distinct(s) ==> Distinct(r)
    ensures |r| <= |s|
    ensures x !in s ==> r == s
  {
    if s == [] then []
    else if s[0] == x then Without(s[1..], x)
    else
      var rest := Without(s[1..], x);
      assert Distinct(s) ==> s[0] !in s[1..];
      assert x !in s ==> [s[0]] + s[1..] == s;
      [s[0]] + rest
  }

  /** `pop` on an order `p + [x] + q` without repeats leaves `p + q`: the others keep their order. */
  lemma {:induction false} WithoutCutsOne(p: seq<int>, x: int, q: seq<int>)
    requires Distinct(p + [x] + q)
    ensures Without(p + [x] + q, x) == p + q
    decreases |p|
  {
    var s := p + [x] + q;
    DistinctTail(s);
    if p == [] {
      assert s[0] == x && s[1..] == q;
    } else {
      assert s[0] == p[0] && s[1..] == p[1..] + [x] + q;
      assert p[0] != x by {
        assert s[|p|] == x;
      }
      WithoutCutsOne(p[1..], x, q);
      assert [p[0]] + (p[1..] + q) == p + q;
    }
  }

  lemma DistinctTail(s: seq<int>)
    requires Distinct(s) && s != []
    ensures Distinct(s[1..]) && s[0] !in s[1..]
  {
    forall i, j | 0 <= i < j < |s| - 1
      ensures s[1..][i] != s[1..][j]
    {
      assert s[1..][i] == s[i + 1] && s[1..][j] == s[j + 1];
    }
    forall j | 0 <= j < |s| - 1
      ensures s[1..][j] != s[0]
    {
      assert s[1..][j] == s[j + 1];
    }
  }

  /**
   * `d[id] = c`: key `id` now holds `c` and every other key keeps its entry;
   * a new key goes to the end of the order, an existing one keeps its place
   * (and its old value is lost).
   */
  function Assign(t: Table, id: int, c: Conn): (r: Table)
    requires Valid(t) && id >= 1
    ensures Valid(r)
    ensures Stored(t, r, id, c)
    ensures |r.entries| == if id in t.entries then |t.entries| else |t.entries| + 1
    ensures r.order == if id in t.entries then t.order else t.order + [id]
  {
    Table(t.entries[id := c], if id in t.entries then t.order else t.order + [id])
  }

  /** `after` maps `id` to `c` and agrees with `before` on every other key. */
  ghost predicate Stored(before: Table, after: Table, id: int, c: Conn)
  {
    && id in after.entries && after.entries[id] == c
    && (forall k :: k != id ==> (k in after.entries <==> k in before.entries))
    && (forall k :: k != id && k in before.entries ==> after.entries[k] == before.entries[k])
  }

  /** `after` is `before` with key `id` gone and every other entry untouched. */
  ghost predicate Dropped(before: Table, after: Table, id: int)
  {
    && id !in after.entries
    && (forall k :: k != id ==> (k in after.entries <==> k in before.entries))
    && (forall k :: k in after.entries ==> after.entries[k] == before.entries[k])
  }

  /** `del d[id]` for a present key. */
  function Delete(t: Table, id: int): (r: Table)
    requires Valid(t) && id in t.entries
    ensures Valid(r)
    ensures Dropped(t, r, id)
    ensures |r.entries| == |t.entries| - 1
    ensures r.order == Without(t.order, id)
  {
    Table(t.entries - {id}, Without(t.order, id))
  }

  // ---------------------------------------------------------------------------
  // The table operations of chat.py

  /** A registration's outcome: the table afterwards and the id it used, if any. */
  datatype Update = Update(table: Table, id: Option<int>)

  /** The id both registrations compute: `len(active_connections) + 1`. */
  function NextId(t: Table): (id: int)
    requires Valid(t)
    ensures id >= 1 && id == |t.order| + 1
  {
    OrderLength(t);
    |t.entries| + 1
  }

  /**
   * Inbound registration after a good handshake (chat.py:209-219): a peer
   * whose address is already in the table is refused and nothing changes;
   * otherwise it is stored under `len + 1`, which replaces whatever that key
   * held, so the table grows by one exactly when that key was free.
   */
  function AdmitInbound(t: Table, c: Conn): (u: Update)
    requires Valid(t)
    ensures Valid(u.table)
    ensures HasAddr(t, c.addr) ==> u == Update(t, None)
    ensures !HasAddr(t, c.addr) ==> u.id == Some(|t.entries| + 1) && Stored(t, u.table, |t.entries| + 1, c)
    ensures !HasAddr(t, c.addr) ==>
      |u.table.entries| == if |t.entries| + 1 in t.entries then |t.entries| else |t.entries| + 1
  {
    if HasAddr(t, c.addr) then Update(t, None)
    else
      var id := NextId(t);
      Update(Assign(t, id, c), Some(id))
  }

  /**
   * Outbound registration after a successful dial (chat.py:121-123): stored
   * under `len + 1` with no second duplicate check.
   */
  function AdmitOutbound(t: Table, c: Conn): (u: Update)
    requires Valid(t)
    ensures Valid(u.table)
    ensures u.id == Some(|t.entries| + 1) && Stored(t, u.table, |t.entries| + 1, c)
    ensures |u.table.entries| == if |t.entries| + 1 in t.entries then |t.entries| else |t.entries| + 1
  {
    var id := NextId(t);
    Update(Assign(t, id, c), Some(id))
  }

  /** `terminate <id>` on the table (chat.py:137-143): a present id is removed, an absent one changes nothing. */
  function TerminateId(t: Table, id: int): (r: Table)
    requires Valid(t)
    ensures Valid(r)
    ensures Dropped(t, r, id)
    ensures id !in t.entries ==> r == t
  {
    if id in t.entries then Delete(t, id) else t
  }

  /**
   * The reader's scan (chat.py:63-66): the position, in iteration order,
   * of the first id whose entry has address `a`.
   */
  function FirstMatch(ids: seq<int>, entries: map<int, Conn>, a: Addr): (r: Option<nat>)
    requires forall i :: 0 <= i < |ids| ==> ids[i] in entries
    ensures r.None? <==> forall i :: 0 <= i < |ids| ==> entries[ids[i]].addr != a
    ensures r.Some? ==> IsFirstMatch(ids, entries, a, r.value)
  {
    if ids == [] then None
    else if entries[ids[0]].addr == a then Some(0)
    else
      match FirstMatch(ids[1..], entries, a)
      case None => None
      case Some(i) => Some(i + 1)
  }

  /** Position `i` holds the first id whose entry has address `a`. */
  predicate IsFirstMatch(ids: seq<int>, entries: map<int, Conn>, a: Addr, i: int)
    requires forall i :: 0 <= i < |ids| ==> ids[i] in entries
  {
    && 0 <= i < |ids|
    && entries[ids[i]].addr == a
    && forall j :: 0 <= j < i ==> entries[ids[j]].addr != a
  }

  /** A scan that stops at the first match finds the position FirstMatch names. */
  lemma FirstMatchIsFirst(ids: seq<int>, entries: map<int, Conn>, a: Addr, i: int)
    requires forall i :: 0 <= i < |ids| ==> ids[i] in entries
    requires IsFirstMatch(ids, entries, a, i)
    ensures FirstMatch(ids, entries, a) == Some(i)
  {
  }

  /**
   * Reader cleanup (chat.py:61-68): exactly the first entry in iteration
   * order whose address is `a` is removed; with no such entry nothing
   * changes.
   */
  function RemoveByAddr(t: Table, a: Addr): (u: Update)
    requires Valid(t)
    ensures Valid(u.table)
    ensures u.id.None? <==> !HasAddr(t, a)
    ensures u.id.None? ==> u.table == t
    ensures u.id.Some? ==> u.id.value in t.entries && t.entries[u.id.value].addr == a
    ensures u.id.Some? ==> Dropped(t, u.table, u.id.value) && |u.table.entries| == |t.entries| - 1
    ensures u.id.Some? ==> exists i :: 0 <= i < |t.order| && t.order[i] == u.id.value && IsFirstMatch(t.order, t.entries, a, i)
  {
    match FirstMatch(t.order, t.entries, a)
    case None => Update(t, None)
    case Some(i) => Update(Delete(t, t.order[i]), Some(t.order[i]))
  }

  /** The rows `list` prints (chat.py:130-131): `(id, address)` in iteration order. */
  function Rows(t: Table): (rows: seq<(int, Addr)>)
    requires Valid(t)
    ensures |rows| == |t.entries|
    ensures forall i :: 0 <= i < |rows| ==> rows[i].0 in t.entries && rows[i].1 == t.entries[rows[i].0].addr
    ensures forall i, j :: 0 <= i < j < |rows| ==> rows[i].0 != rows[j].0
  {
    OrderLength(t);
    seq(|t.order|, i requires 0 <= i < |t.order| => (t.order[i], t.entries[t.order[i]].addr))
  }

  // ---------------------------------------------------------------------------
  // Properties

  /** Every listed row is a live id and every live id is listed. */
  lemma ListedIffLive(t: Table, id: int)
    requires Valid(t)
    ensures (exists i :: 0 <= i < |Rows(t)| && Rows(t)[i].0 == id) <==> id in t.entries
  {
    var rows := Rows(t);
    if id in t.entries {
      var i :| 0 <= i < |t.order| && t.order[i] == id;
      assert rows[i].0 == id;
    }
  }

  /** Storing an address that no entry has keeps addresses unique, even when the key was in use. */
  lemma StoredKeepsUnique(t: Table, r: Table, id: int, c: Conn)
    requires Valid(t) && UniqueAddrs(t) && Stored(t, r, id, c) && !HasAddr(t, c.addr)
    ensures UniqueAddrs(r)
  {
    forall j, k | j in r.entries && k in r.entries && j != k
      ensures r.entries[j].addr != r.entries[k].addr
    {
      if j == id {
        assert r.entries[k] == t.entries[k];
      } else if k == id {
        assert r.entries[j] == t.entries[j];
      } else {
        assert r.entries[j] == t.entries[j] && r.entries[k] == t.entries[k];
      }
    }
  }

  /** Removing an entry keeps addresses unique. */
  lemma DroppedKeepsUnique(t: Table, r: Table, id: int)
    requires UniqueAddrs(t) && Dropped(t, r, id)
    ensures UniqueAddrs(r)
  {
  }

  /** Inbound registration never lets two entries share an address. */
  lemma AdmitInboundKeepsUnique(t: Table, c: Conn)
    requires Valid(t) && UniqueAddrs(t)
    ensures UniqueAddrs(AdmitInbound(t, c).table)
  {
    var u := AdmitInbound(t, c);
    if !HasAddr(t, c.addr) {
      StoredKeepsUnique(t, u.table, |t.entries| + 1, c);
    }
  }

  /** While nothing has been removed the ids are exactly 1..n, and `len + 1` is a fresh id. */
  lemma DenseIdsStayFresh(t: Table, c: Conn, n: nat)
    requires Valid(t) && t.entries.Keys == Ids(n)
    ensures NextId(t) !in t.entries
    ensures AdmitOutbound(t, c).table.entries.Keys == Ids(n + 1)
  {
    IdsCard(n);
    assert |t.entries| == |t.entries.Keys|;
    assert Ids(n + 1) == Ids(n) + {n + 1};
  }

  /**
   * The id rule reuses a live id after a removal: with ids 1..n, removing
   * any `j < n` and registering again computes id `n`, which is still in
   * use, so the new peer replaces the entry stored there and the table
   * does not grow.
   */
  lemma RemovalThenAdmitOverwrites(t: Table, j: int, c: Conn, n: nat)
    requires Valid(t) && t.entries.Keys == Ids(n)
    requires 1 <= j < n
    ensures var t1 := TerminateId(t, j);
      var u := AdmitOutbound(t1, c);
      && NextId(t1) == n && n in t1.entries
      && u.id == Some(n) && u.table.entries[n] == c
      && |u.table.entries| == |t1.entries| == n - 1
  {
    IdsCard(n);
    assert |t.entries| == |t.entries.Keys|;
    var t1 := TerminateId(t, j);
    assert n in t1.entries;
  }

  /**
   * The instance from the table {1, 2}: after `terminate 1`, the next
   * registration gets id 2 and overwrites the peer that held it.
   */
  lemma IdReuseExample(c1: Conn, c2: Conn, c3: Conn)
    ensures var t0 := Table(map[1 := c1, 2 := c2], [1, 2]);
      var u := AdmitOutbound(TerminateId(t0, 1), c3);
      u.id == Some(2) && u.table.entries == map[2 := c3]
  {
    var t0 := Table(map[1 := c1, 2 := c2], [1, 2]);
    assert Valid(t0);
    var t1 := TerminateId(t0, 1);
    assert t1.entries == map[2 := c2];
    assert |t1.entries| == 1;
    var u := AdmitOutbound(t1, c3);
    assert u.table.entries == map[2 := c2][2 := c3];
  }
}
