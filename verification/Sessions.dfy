/** The connections of the line protocol: who is who, and what each has sent so far. */
module Sessions {
  import opened MapOrder
  import opened Framing

  /** A TCP connection; two connections are never the same number. */
  type Conn = nat

  /** Both directions of the association of ids and connections. */
  datatype Maps = Maps(byId: map<string, Conn>, byConn: map<Conn, string>)

  // ---- what the operations do to it ----

  function Connected(m: Maps, cli: Conn, uid: string): Maps { Maps(m.byId[uid := cli], m.byConn[cli := uid]) }

  /** The id on record; a connection without one counts as having the empty id. */
  function IdOf(m: Maps, cli: Conn): string { if cli in m.byConn then m.byConn[cli] else "" }

  /** The old id goes only if it is not empty. */
  function Renamed(m: Maps, cli: Conn, newId: string): Maps {
    var kept := if IdOf(m, cli) != "" then m.byId - {IdOf(m, cli)} else m.byId;
    Maps(kept[newId := cli], m.byConn[cli := newId])
  }

  /** A subscription from a connection without an id gives it one. */
  function Identified(m: Maps, cli: Conn, freshId: string): Maps {
    if IdOf(m, cli) != "" then m else Maps(m.byId[freshId := cli], m.byConn[cli := freshId])
  }

  function Disconnected(m: Maps, cli: Conn): Maps
    requires cli in m.byConn
  {
    Maps(m.byId - {m.byConn[cli]}, m.byConn - {cli})
  }

  // ---- the invariant ----

  predicate Recorded(m: Maps, id: string)
    requires id in m.byId
  {
    m.byId[id] in m.byConn && m.byConn[m.byId[id]] == id
  }

  /** An id that is mapped to a connection is the id that connection has on record. */
  predicate IdsTrue(m: Maps) { forall id | id in m.byId :: Recorded(m, id) }

  /** The connection is reachable under the empty id. */
  predicate EmptyIdHeld(m: Maps, cli: Conn) { "" in m.byId && m.byId[""] == cli }

  lemma ConnectKeeps(m: Maps, cli: Conn, uid: string)
    requires IdsTrue(m) && cli !in m.byConn
    ensures IdsTrue(Connected(m, cli, uid))
  {
    forall id | id in Connected(m, cli, uid).byId ensures Recorded(Connected(m, cli, uid), id) {
      assert id != uid ==> Recorded(m, id);
    }
  }

  /** Changing the id keeps the association true exactly when the connection does not leave an empty id behind. */
  lemma RenameKeepsExactly(m: Maps, cli: Conn, newId: string)
    requires IdsTrue(m)
    ensures IdsTrue(Renamed(m, cli, newId)) <==> !EmptyIdHeld(m, cli) || newId == ""
  {
    var m' := Renamed(m, cli, newId);
    if EmptyIdHeld(m, cli) && newId != "" {
      assert Recorded(m, "");
      assert "" in m'.byId && !Recorded(m', "");
    } else {
      forall id | id in m'.byId ensures Recorded(m', id) {
        assert id != newId ==> Recorded(m, id);
      }
    }
  }

  lemma IdentifyKeepsExactly(m: Maps, cli: Conn, freshId: string)
    requires IdsTrue(m) && freshId != ""
    ensures IdsTrue(Identified(m, cli, freshId)) <==> !EmptyIdHeld(m, cli)
  {
    var m' := Identified(m, cli, freshId);
    if EmptyIdHeld(m, cli) {
      assert Recorded(m, "");
      assert "" in m'.byId && !Recorded(m', "");
    } else {
      forall id | id in m'.byId ensures Recorded(m', id) {
        assert id in m.byId ==> Recorded(m, id);
      }
    }
  }

  /** After a disconnect no id leads to the connection any more, even if another connection had taken its id over. */
  lemma DisconnectForgets(m: Maps, cli: Conn)
    requires IdsTrue(m) && cli in m.byConn
    ensures IdsTrue(Disconnected(m, cli))
    ensures forall id | id in Disconnected(m, cli).byId :: Disconnected(m, cli).byId[id] != cli
  {
    var m' := Disconnected(m, cli);
    forall id | id in m'.byId ensures Recorded(m', id) && m'.byId[id] != cli {
      assert Recorded(m, id);
    }
  }

  // ---- who can be reached ----

  /** The id a connection has on record leads back to it. */
  predicate Found(m: Maps, cli: Conn) { cli in m.byConn && m.byConn[cli] in m.byId && m.byId[m.byConn[cli]] == cli }

  /** Connecting finds the newcomer and loses whoever had the id it was given. */
  lemma FoundAfterConnect(m: Maps, cli: Conn, uid: string, b: Conn)
    requires cli !in m.byConn
    ensures Found(Connected(m, cli, uid), b) <==> b == cli || (Found(m, b) && m.byConn[b] != uid)
  {
  }

  /** Asking for an id finds the asker and loses whoever had it, or shared the id the asker gives up. */
  lemma FoundAfterRename(m: Maps, cli: Conn, newId: string, b: Conn)
    ensures Found(Renamed(m, cli, newId), b) <==>
              || b == cli
              || (Found(m, b) && m.byConn[b] != newId && (m.byConn[b] == IdOf(m, cli) ==> m.byConn[b] == ""))
  {
  }

  lemma FoundAfterIdentify(m: Maps, cli: Conn, freshId: string, b: Conn)
    requires freshId != ""
    ensures Found(Identified(m, cli, freshId), b) <==>
              if IdOf(m, cli) != "" then Found(m, b)
              else b == cli || (Found(m, b) && m.byConn[b] != freshId)
  {
  }

  /** Another connection is found after a disconnect exactly when it was before and has another id. */
  lemma FoundAfterDisconnect(m: Maps, cli: Conn, b: Conn)
    requires cli in m.byConn && b != cli
    ensures Found(Disconnected(m, cli), b) <==> Found(m, b) && m.byConn[b] != m.byConn[cli]
  {
  }

  /** A connection that takes another's id over is lost when that other one leaves, though it is still connected. */
  lemma TakeoverIsLost(a: Conn, b: Conn, x: string, y: string)
    requires a != b && x != "" && y != "" && x != y
    ensures var m := Renamed(Connected(Connected(Maps(map[], map[]), a, x), b, y), b, x);
            && Found(m, b) && !Found(m, a)
            && b in Disconnected(m, a).byConn && !Found(Disconnected(m, a), b)
  {
    var m1 := Connected(Maps(map[], map[]), a, x);
    var m2 := Connected(m1, b, y);
    FoundAfterRename(m2, b, x, a);
    FoundAfterRename(m2, b, x, b);
    FoundAfterDisconnect(Renamed(m2, b, x), a, b);
  }

  /** The scan for a connection without a record finds nothing. */
  lemma ScanFindsNothing(m: Maps, cli: Conn)
    requires IdsTrue(m) && cli !in m.byConn
    ensures forall id | id in m.byId :: m.byId[id] != cli
  {
    forall id | id in m.byId ensures m.byId[id] != cli {
      assert Recorded(m, id);
    }
  }

  // ---- the server's fields ----

  class VSTP {
    var clientsById: map<string, Conn>
    var clientsByTcpCli: map<Conn, string>
    var incomingDataBuffer: map<Conn, string>
    var cliIdCount: nat

    constructor ()
      ensures Now() == Maps(map[], map[]) && incomingDataBuffer == map[]
    {
      clientsById, clientsByTcpCli, incomingDataBuffer, cliIdCount := map[], map[], map[], 0;
    }

    function Now(): Maps
      reads this
    {
      Maps(clientsById, clientsByTcpCli)
    }

    /** `uid` is the id the server makes up: the running number and a name. */
    method OnClientConnect(cli: Conn, uid: string)
      modifies this
      ensures Now() == Connected(old(Now()), cli, uid)
      ensures incomingDataBuffer == old(incomingDataBuffer)[cli := ""] && cliIdCount == old(cliIdCount) + 1
    {
      cliIdCount := cliIdCount + 1;
      clientsById := clientsById[uid := cli];
      clientsByTcpCli := clientsByTcpCli[cli := uid];
      incomingDataBuffer := incomingDataBuffer[cli := ""];
    }

    /** With no record of the connection, the ids are scanned for it and the first hit is dropped. */
    method OnClientDisconnect(cli: Conn)
      modifies this
      ensures cli in old(clientsByTcpCli) ==> Now() == Disconnected(old(Now()), cli)
      ensures cli !in old(clientsByTcpCli) && old(IdsTrue(Now())) ==> Now() == old(Now())
      ensures cli !in old(clientsByTcpCli) ==>
                (Now() == old(Now())
                 || exists id | id in old(clientsById) && old(clientsById)[id] == cli ::
                      Now() == Maps(old(clientsById) - {id}, old(clientsByTcpCli)))
      ensures old(IdsTrue(Now())) ==> IdsTrue(Now()) && forall id | id in clientsById :: clientsById[id] != cli
      ensures incomingDataBuffer == old(incomingDataBuffer) - {cli} && cliIdCount == old(cliIdCount)
    {
      ghost var m := Now();
      if cli in clientsByTcpCli {
        if IdsTrue(m) {
          DisconnectForgets(m, cli);
        }
        var id := clientsByTcpCli[cli];
        clientsById := clientsById - {id};
        clientsByTcpCli := clientsByTcpCli - {cli};
      } else {
        if IdsTrue(m) {
          ScanFindsNothing(m, cli);
        }
        var ids := KeysInSomeOrder(clientsById);
        for i := 0 to |ids|
          invariant Now() == m && incomingDataBuffer == old(incomingDataBuffer) && cliIdCount == old(cliIdCount)
        {
          if clientsById[ids[i]] == cli {
            clientsById := clientsById - {ids[i]};
            break;
          }
        }
      }
      incomingDataBuffer := incomingDataBuffer - {cli};
    }

    /** Adds what was read to the connection's buffer and takes off the complete lines. */
    method OnClientData(cli: Conn, data: string) returns (lines: seq<string>)
      requires cli in incomingDataBuffer
      modifies this`incomingDataBuffer
      ensures lines == Lines(old(incomingDataBuffer)[cli] + data)
      ensures incomingDataBuffer == old(incomingDataBuffer)[cli := Leftover(old(incomingDataBuffer)[cli] + data)]
    {
      var buf := incomingDataBuffer[cli];
      buf := buf + data;
      lines, buf := TakeLines(buf);
      incomingDataBuffer := incomingDataBuffer[cli := buf];
    }

    method ChangeOrConfirmId(cli: Conn, newId: string)
      modifies this`clientsById, this`clientsByTcpCli
      ensures Now() == Renamed(old(Now()), cli, newId)
    {
      var oldId := if cli in clientsByTcpCli then clientsByTcpCli[cli] else "";
      if oldId != "" {
        clientsById := clientsById - {oldId};
      }
      clientsById := clientsById[newId := cli];
      clientsByTcpCli := clientsByTcpCli[cli := newId];
    }

    /** The id a subscription is made under. */
    method IdForSubscription(cli: Conn, freshId: string) returns (cid: string)
      requires freshId != ""
      modifies this`clientsById, this`clientsByTcpCli
      ensures Now() == Identified(old(Now()), cli, freshId)
      ensures cid == IdOf(Now(), cli) && cid != ""
    {
      cid := if cli in clientsByTcpCli then clientsByTcpCli[cli] else "";
      if cid == "" {
        cid := freshId;
        clientsById := clientsById[cid := cli];
        clientsByTcpCli := clientsByTcpCli[cli := cid];
      }
    }
  }

  // ---- runs ----

  datatype Move =
    | Connect(cli: Conn, uid: string)
    | SetId(cli: Conn, newId: string)
    | Subscribe(cli: Conn, freshId: string)
    | Disconnect(cli: Conn)

  /** Connections are new when they connect, and the ids the server makes up are not empty. */
  predicate Possible(m: Maps, v: Move) {
    match v
    case Connect(cli, uid) => cli !in m.byConn && uid != ""
    case SetId(_, _) => true
    case Subscribe(_, freshId) => freshId != ""
    case Disconnect(cli) => true
  }

  ghost predicate Moved(m: Maps, v: Move, m': Maps) {
    match v
    case Connect(cli, uid) => m' == Connected(m, cli, uid)
    case SetId(cli, newId) => m' == Renamed(m, cli, newId)
    case Subscribe(cli, freshId) => m' == Identified(m, cli, freshId)
    case Disconnect(cli) =>
      if cli in m.byConn then m' == Disconnected(m, cli)
      else m' == m || exists id | id in m.byId && m.byId[id] == cli :: m' == m.(byId := m.byId - {id})
  }

  ghost predicate SessionRun(ms: seq<Maps>, vs: seq<Move>) {
    && |ms| == |vs| + 1 && ms[0] == Maps(map[], map[])
    && forall i | 0 <= i < |vs| :: Possible(ms[i], vs[i]) && Moved(ms[i], vs[i], ms[i + 1])
  }

  /** No client asks for the empty id. */
  predicate NoEmptyIds(vs: seq<Move>) { forall i | 0 <= i < |vs| :: vs[i].SetId? ==> vs[i].newId != "" }

  lemma MoveKeeps(m: Maps, v: Move, m': Maps)
    requires IdsTrue(m) && "" !in m.byId && Possible(m, v) && Moved(m, v, m') && (v.SetId? ==> v.newId != "")
    ensures IdsTrue(m') && "" !in m'.byId
  {
    match v
    case Connect(cli, uid) => ConnectKeeps(m, cli, uid);
    case SetId(cli, newId) => RenameKeepsExactly(m, cli, newId);
    case Subscribe(cli, freshId) => IdentifyKeepsExactly(m, cli, freshId);
    case Disconnect(cli) =>
      if cli in m.byConn {
        DisconnectForgets(m, cli);
      } else {
        ScanFindsNothing(m, cli);
      }
  }

  /** In every run in which no client asks for the empty id, a mapped id is the recorded one. */
  lemma {:induction false} RunsKeepIdsTrue(ms: seq<Maps>, vs: seq<Move>, i: nat)
    requires SessionRun(ms, vs) && NoEmptyIds(vs) && i < |ms|
    ensures IdsTrue(ms[i]) && "" !in ms[i].byId
  {
    if i > 0 {
      hide IdsTrue, Moved, Possible;
      RunsKeepIdsTrue(ms, vs, i - 1);
      assert Possible(ms[i - 1], vs[i - 1]) && Moved(ms[i - 1], vs[i - 1], ms[i]);
      MoveKeeps(ms[i - 1], vs[i - 1], ms[i]);
    }
  }

  // ---- runs in which everyone stays reachable ----

  predicate AllFound(m: Maps) { forall c | c in m.byConn :: Found(m, c) }

  /** The move gives nobody an id that belongs to another connection. */
  predicate Untaken(m: Maps, v: Move) {
    match v
    case Connect(_, uid) => uid !in m.byId
    case SetId(cli, newId) => newId in m.byId ==> m.byId[newId] == cli
    case Subscribe(cli, freshId) => IdOf(m, cli) == "" ==> freshId !in m.byId
    case Disconnect(_) => true
  }

  lemma MoveFindsExactly(m: Maps, v: Move, m': Maps)
    requires IdsTrue(m) && "" !in m.byId && AllFound(m) && Possible(m, v) && Moved(m, v, m')
    ensures AllFound(m') <==> Untaken(m, v)
  {
    assert forall c | c in m.byConn :: Found(m, c);
    match v
    case Connect(cli, uid) =>
      forall b ensures b in m'.byConn && Untaken(m, v) ==> Found(m', b) {
        FoundAfterConnect(m, cli, uid, b);
      }
      if uid in m.byId {
        assert Recorded(m, uid);
        FoundAfterConnect(m, cli, uid, m.byId[uid]);
      }
    case SetId(cli, newId) =>
      forall b ensures b in m'.byConn && Untaken(m, v) ==> Found(m', b) {
        FoundAfterRename(m, cli, newId, b);
      }
      if newId in m.byId {
        assert Recorded(m, newId);
        FoundAfterRename(m, cli, newId, m.byId[newId]);
      }
    case Subscribe(cli, freshId) =>
      forall b ensures b in m'.byConn && Untaken(m, v) ==> Found(m', b) {
        FoundAfterIdentify(m, cli, freshId, b);
      }
      if freshId in m.byId {
        assert Recorded(m, freshId);
        FoundAfterIdentify(m, cli, freshId, m.byId[freshId]);
      }
    case Disconnect(cli) =>
      if cli in m.byConn {
        forall b | b in m'.byConn ensures Found(m', b) {
          FoundAfterDisconnect(m, cli, b);
        }
      } else {
        ScanFindsNothing(m, cli);
      }
  }

  lemma {:induction false} AllFoundUntil(ms: seq<Maps>, vs: seq<Move>, i: nat)
    requires SessionRun(ms, vs) && NoEmptyIds(vs) && i < |ms|
    requires forall j | 0 <= j < i :: Untaken(ms[j], vs[j])
    ensures AllFound(ms[i])
  {
    if i > 0 {
      hide IdsTrue, Moved, Possible, AllFound, Untaken;
      AllFoundUntil(ms, vs, i - 1);
      RunsKeepIdsTrue(ms, vs, i - 1);
      assert Possible(ms[i - 1], vs[i - 1]) && Moved(ms[i - 1], vs[i - 1], ms[i]);
      MoveFindsExactly(ms[i - 1], vs[i - 1], ms[i]);
    }
  }

  /**
   Every connection can be reached under the id it has on record, in every state of a run, exactly when no
   move of the run takes an id over from another connection.
   */
  lemma ReachableExactly(ms: seq<Maps>, vs: seq<Move>)
    requires SessionRun(ms, vs) && NoEmptyIds(vs)
    ensures (forall i | 0 <= i < |ms| :: AllFound(ms[i])) <==> (forall i | 0 <= i < |vs| :: Untaken(ms[i], vs[i]))
  {
    hide IdsTrue, Moved, Possible, AllFound, Untaken;
    if forall i | 0 <= i < |vs| :: Untaken(ms[i], vs[i]) {
      forall i | 0 <= i < |ms| ensures AllFound(ms[i]) {
        AllFoundUntil(ms, vs, i);
      }
    }
    if forall i | 0 <= i < |ms| :: AllFound(ms[i]) {
      forall i | 0 <= i < |vs| ensures Untaken(ms[i], vs[i]) {
        RunsKeepIdsTrue(ms, vs, i);
        assert AllFound(ms[i]) && AllFound(ms[i + 1]);
        assert Possible(ms[i], vs[i]) && Moved(ms[i], vs[i], ms[i + 1]);
        MoveFindsExactly(ms[i], vs[i], ms[i + 1]);
      }
    }
  }

  /** A connection that asks for the empty id, then for another, stays reachable under the empty id after it is gone. */
  lemma EmptyIdStays(cli: Conn, uid: string, newId: string)
    requires uid != "" && newId != ""
    ensures var m0 := Maps(map[], map[]);
            var m1 := Renamed(Renamed(Connected(m0, cli, uid), cli, ""), cli, newId);
            && !IdsTrue(m1)
            && EmptyIdHeld(Disconnected(m1, cli), cli)
  {
    var m0 := Maps(map[], map[]);
    var m1 := Renamed(Renamed(Connected(m0, cli, uid), cli, ""), cli, newId);
    assert "" in m1.byId && m1.byId[""] == cli;
    assert !Recorded(m1, "");
  }

  // ---- many clients' reads at once ----

  datatype Read = Read(cli: Conn, data: string)

  /** What one client sent, in order, whoever else sent in between. */
  function SentBy(arrivals: seq<Read>, cli: Conn): seq<string> {
    if arrivals == [] then []
    else
      var r := arrivals[|arrivals| - 1];
      SentBy(arrivals[..|arrivals| - 1], cli) + if r.cli == cli then [r.data] else []
  }

  /** Buffers and the lines taken so far, read by read. */
  ghost predicate ReadRun(buffers: seq<map<Conn, string>>, taken: seq<map<Conn, seq<string>>>, arrivals: seq<Read>) {
    && |buffers| == |taken| == |arrivals| + 1
    && buffers[0].Keys == taken[0].Keys
    && (forall c | c in buffers[0] :: buffers[0][c] == "" && taken[0][c] == [])
    && forall i | 0 <= i < |arrivals| :: ReadStep(buffers[i], taken[i], arrivals[i], buffers[i + 1], taken[i + 1])
  }

  predicate ReadStep(
    b: map<Conn, string>, t: map<Conn, seq<string>>, r: Read, b': map<Conn, string>, t': map<Conn, seq<string>>)
  {
    && r.cli in b && r.cli in t
    && b' == b[r.cli := Leftover(b[r.cli] + r.data)]
    && t' == t[r.cli := t[r.cli] + Lines(b[r.cli] + r.data)]
  }

  /** However reads of different clients interleave, each client's lines are those of everything it sent. */
  lemma {:induction false} ClientsDoNotMix(
    buffers: seq<map<Conn, string>>, taken: seq<map<Conn, seq<string>>>, arrivals: seq<Read>, i: nat, c: Conn)
    requires ReadRun(buffers, taken, arrivals) && i <= |arrivals| && c in buffers[0]
    ensures c in buffers[i] && c in taken[i]
    ensures var sent := Concat(SentBy(arrivals[..i], c));
            taken[i][c] == Lines(sent) && buffers[i][c] == Leftover(sent)
  {
    hide Lines, Leftover;
    if i == 0 {
      NoLine("");
      assert SentBy(arrivals[..0], c) == [];
    } else {
      ClientsDoNotMix(buffers, taken, arrivals, i - 1, c);
      assert ReadStep(buffers[i - 1], taken[i - 1], arrivals[i - 1], buffers[i], taken[i]);
      var sent, r := SentBy(arrivals[..i - 1], c), arrivals[i - 1];
      assert arrivals[..i] == arrivals[..i - 1] + [r];
      OneMoreArrival(arrivals[..i - 1], r, c);
      if r.cli == c {
        LinesContinue(Concat(sent), r.data);
      }
    }
  }

  lemma OneMoreArrival(before: seq<Read>, r: Read, c: Conn)
    ensures var sent := SentBy(before, c);
            && (r.cli != c ==> SentBy(before + [r], c) == sent)
            && (r.cli == c ==> Concat(SentBy(before + [r], c)) == Concat(sent) + r.data)
  {
    var all, sent := before + [r], SentBy(before, c);
    assert all[..|all| - 1] == before;
    assert (sent + [r.data])[..|sent|] == sent;
  }
}
