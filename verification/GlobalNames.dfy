/**
 Global names: every harbor keeps the handles it has heard of, the master has the last registration of a name and
 broadcasts it. Channels between a harbor and the master are queues that lose nothing.
 */
module GlobalNames {
  import opened Rings
  import opened Arithmetic

  const HARBOR_UNIT := 0x100_0000   // 1 << HANDLE_REMOTE_SHIFT

  /** From a harbor to the master: its address, a question for a name, a registration, a request for the address of another harbor. */
  datatype Note = Join | Ask(name: nat) | Register(name: nat, handle: nat) | Locate(harbor: nat)

  /** From the master to a harbor. */
  datatype Told = Told(name: nat, handle: nat)

  datatype Route = Local | Remote | Dropped

  datatype Delivery = Delivery(message: nat, handle: nat, route: Route)

  /** A harbor: `peers` are the harbors it has a connection to; `sent` and `handled` are histories by name. */
  datatype Node = Node(values: map<nat, nat>, pending: map<nat, seq<nat>>, peers: set<nat>,
                       sent: map<nat, seq<nat>>, handled: map<nat, seq<Delivery>>, up: seq<Note>, down: seq<Told>)

  /** A registration and the harbor that made it. */
  datatype Registration = Registration(h: nat, name: nat, handle: nat)

  /**
   The master is connected to the harbors in `joined`. Three histories: `cut` are the harbors it has closed its connection to, `told`
   the harbors a name has been broadcast to since its last registration, `taken` the registrations in the order it has taken them in.
   */
  datatype System = System(nodes: map<nat, Node>, master: map<nat, nat>, joined: set<nat>, cut: set<nat>, told: map<nat, set<nat>>,
                           taken: seq<Registration>)

  function Value(nd: Node, n: nat): nat
  {
    if n in nd.values then nd.values[n] else 0
  }

  function Pending(nd: Node, n: nat): seq<nat>
  {
    if n in nd.pending then nd.pending[n] else []
  }

  function Sent(nd: Node, n: nat): seq<nat>
  {
    if n in nd.sent then nd.sent[n] else []
  }

  function Handled(nd: Node, n: nat): seq<Delivery>
  {
    if n in nd.handled then nd.handled[n] else []
  }

  function ToldOf(told: map<nat, set<nat>>, n: nat): set<nat>
  {
    if n in told then told[n] else {}
  }

  // ---------- a harbor ----------

  /** _dispatch_queue followed by _release_queue: without a connection all messages are dropped. */
  function Flush(messages: seq<nat>, handle: nat, peers: set<nat>): (d: seq<Delivery>)
    ensures |d| == |messages|
    ensures forall i :: 0 <= i < |d| ==> d[i] == Delivery(messages[i], handle, if handle / HARBOR_UNIT in peers then Remote else Dropped)
  {
    seq(|messages|, i requires 0 <= i < |messages| => Delivery(messages[i], handle, if handle / HARBOR_UNIT in peers then Remote else Dropped))
  }

  /** _update_remote_name. */
  function Resolve(nd: Node, n: nat, handle: nat): Node
  {
    nd.(values := nd.values[n := handle], pending := nd.pending[n := []],
        handled := nd.handled[n := Handled(nd, n) + Flush(Pending(nd, n), handle, nd.peers)])
  }

  /** _remote_register_name with a handle. */
  function RegisterName(nd: Node, n: nat, handle: nat): Node
  {
    var resolved := Resolve(nd, n, handle);
    resolved.(up := nd.up + [Register(n, handle)])
  }

  /** _remote_send_handle. */
  function Routed(id: nat, peers: set<nat>, handle: nat): Route
  {
    if handle / HARBOR_UNIT == id then Local else if handle / HARBOR_UNIT in peers then Remote else Dropped
  }

  /** _remote_send_name, with _remote_send_handle: without a connection the message is dropped, and the address of the harbor is requested. */
  function SendName(id: nat, nd: Node, n: nat, message: nat): Node
  {
    var logged := nd.(sent := nd.sent[n := Sent(nd, n) + [message]]);
    var v := Value(nd, n);
    if v == 0 then logged.(pending := nd.pending[n := Pending(nd, n) + [message]], up := nd.up + [Ask(n)])
    else logged.(handled := nd.handled[n := Handled(nd, n) + [Delivery(message, v, Routed(id, nd.peers, v))]],
                 up := if Routed(id, nd.peers, v) == Dropped then nd.up + [Locate(v / HARBOR_UNIT)] else nd.up)
  }

  // ---------- the master ----------

  function Broadcast(s: System, t: Told): System
  {
    s.(nodes := map h | h in s.nodes :: if h in s.joined then s.nodes[h].(down := s.nodes[h].down + [t]) else s.nodes[h],
       told := s.told[t.name := s.joined])
  }

  /**
   The master takes in one note. A request for an address is an address report to it, of an empty address: it closes its
   connection to that harbor and cannot connect again.
   */
  function Receive(s: System, h: nat, note: Note): System
  {
    match note
    case Join => s.(joined := s.joined + {h})
    case Ask(n) => if n in s.master then Broadcast(s, Told(n, s.master[n])) else s
    case Locate(k) => s.(joined := s.joined - {k}, cut := if k in s.joined then s.cut + {k} else s.cut)
    case Register(n, handle) => Broadcast(s.(master := s.master[n := handle], taken := s.taken + [Registration(h, n, handle)]), Told(n, handle))
  }

  // ---------- runs ----------

  datatype Action = DoRegister(h: nat, name: nat, handle: nat) | DoSend(h: nat, name: nat, message: nat)
                  | MasterGets(h: nat) | HarborGets(h: nat) | PeerUp(h: nat, peer: nat)

  function Do(s: System, a: Action): System
  {
    if a.h !in s.nodes then s else
      var nd := s.nodes[a.h];
      match a
      case DoRegister(h, n, handle) => if handle < HARBOR_UNIT then s else s.(nodes := s.nodes[h := RegisterName(nd, n, handle)])
      case DoSend(h, n, message) => s.(nodes := s.nodes[h := SendName(h, nd, n, message)])
      case MasterGets(h) => if nd.up == [] then s else Receive(s.(nodes := s.nodes[h := nd.(up := nd.up[1..])]), h, nd.up[0])
      case HarborGets(h) => if nd.down == [] then s else s.(nodes := s.nodes[h := Resolve(nd, nd.down[0].name, nd.down[0].handle).(down := nd.down[1..])])
      case PeerUp(h, peer) => if peer == h then s else s.(nodes := s.nodes[h := nd.(peers := nd.peers + {peer})])
  }

  /** Every harbor starts by sending its address. */
  function Start(harbors: set<nat>): System
  {
    System(map h | h in harbors :: Node(map[], map[], {}, map[], map[], [Join], []), map[], {}, {}, map[], [])
  }

  function After(harbors: set<nat>, run: seq<Action>): System
  {
    if run == [] then Start(harbors) else Do(After(harbors, run[..|run| - 1]), run[|run| - 1])
  }

  // ---------- the invariant ----------

  /** The last value of a name in flight, or the one that is stored. */
  function LastTold(down: seq<Told>, n: nat, stored: nat): nat
  {
    if down == [] then stored
    else if down[|down| - 1].name == n then down[|down| - 1].handle
    else LastTold(down[..|down| - 1], n, stored)
  }

  ghost predicate Registering(up: seq<Note>, n: nat)
  {
    exists i :: 0 <= i < |up| && up[i].Register? && up[i].name == n
  }

  ghost predicate Asking(up: seq<Note>, n: nat)
  {
    Ask(n) in up
  }

  ghost predicate Answering(down: seq<Told>, n: nat)
  {
    exists i :: 0 <= i < |down| && down[i].name == n
  }

  function Messages(d: seq<Delivery>): (m: seq<nat>)
    ensures |m| == |d|
  {
    seq(|d|, i requires 0 <= i < |d| => d[i].message)
  }

  /** What holds of one harbor and one name: the first and the third clause as long as the master has not cut the harbor off. */
  ghost predicate NameInv(h: nat, nd: Node, master: map<nat, nat>, joined: set<nat>, cut: set<nat>, told: set<nat>, n: nat)
  {
    && (h in cut || Registering(nd.up, n) || LastTold(nd.down, n, Value(nd, n)) == if h in told && n in master then master[n] else 0)
    && (Pending(nd, n) != [] ==> Value(nd, n) == 0)
    && (Pending(nd, n) != [] ==> h in cut || Asking(nd.up, n) || Answering(nd.down, n) || (n !in master && h in joined))
    && Sent(nd, n) == Messages(Handled(nd, n)) + Pending(nd, n)
  }

  ghost predicate NodeInv(h: nat, nd: Node, s: System)
  {
    && (forall n: nat :: NameInv(h, nd, s.master, s.joined, s.cut, ToldOf(s.told, n), n))
    && (h !in s.joined && h !in s.cut ==> nd.up != [] && nd.up[0] == Join && nd.down == [])
    && (forall i :: 0 <= i < |nd.up| && nd.up[i].Join? ==> i == 0 && h !in s.joined && h !in s.cut)
    && (forall i :: 0 <= i < |nd.up| && nd.up[i].Register? ==> nd.up[i].handle > 0)
    && (forall i :: 0 <= i < |nd.down| ==> nd.down[i].handle > 0)
    && h !in nd.peers
  }

  ghost predicate MasterInv(s: System)
  {
    && (forall n :: n in s.master ==> s.master[n] > 0)
    && (forall n :: n in s.told ==> s.told[n] <= s.joined + s.cut)
    && s.joined !! s.cut
  }

  ghost predicate Inv(s: System)
  {
    MasterInv(s) && forall h :: h in s.nodes ==> NodeInv(h, s.nodes[h], s)
  }

  // ---------- channels ----------

  lemma {:induction false} LastToldPop(down: seq<Told>, n: nat, stored: nat)
    requires down != []
    ensures LastTold(down, n, stored) == LastTold(down[1..], n, if down[0].name == n then down[0].handle else stored)
    decreases |down|
  {
    var k := |down| - 1;
    if k > 0 && down[k].name != n {
      LastToldPop(down[..k], n, stored);
      assert down[..k][1..] == down[1..][..k - 1];
    }
  }

  lemma LastToldPush(down: seq<Told>, t: Told, n: nat, stored: nat)
    ensures LastTold(down + [t], n, stored) == if t.name == n then t.handle else LastTold(down, n, stored)
  {
    assert (down + [t])[..|down|] == down;
  }

  lemma MessagesAppend(a: seq<Delivery>, b: seq<Delivery>)
    ensures Messages(a + b) == Messages(a) + Messages(b)
  {
  }

  /** A resolved name has no pending messages, and all it had are handled in their order. */
  lemma Resolved(h: nat, nd: Node, n: nat, handle: nat)
    requires Sent(nd, n) == Messages(Handled(nd, n)) + Pending(nd, n)
    ensures var nd' := Resolve(nd, n, handle);
            Value(nd', n) == handle && Pending(nd', n) == [] && Sent(nd', n) == Messages(Handled(nd', n)) + Pending(nd', n)
  {
    var d := Flush(Pending(nd, n), handle, nd.peers);
    MessagesAppend(Handled(nd, n), d);
    assert Messages(d) == Pending(nd, n);
  }

  // ---------- what every step keeps ----------

  lemma Popped(up: seq<Note>, n: nat)
    requires up != []
    ensures Registering(up, n) <==> Registering(up[1..], n) || (up[0].Register? && up[0].name == n)
    ensures Asking(up, n) <==> Asking(up[1..], n) || up[0] == Ask(n)
  {
    if Registering(up, n) {
      var i :| 0 <= i < |up| && up[i].Register? && up[i].name == n;
      assert i > 0 ==> up[1..][i - 1] == up[i];
    }
    if Registering(up[1..], n) {
      var i :| 0 <= i < |up[1..]| && up[1..][i].Register? && up[1..][i].name == n;
      assert up[i + 1] == up[1..][i];
    }
    assert up == [up[0]] + up[1..];
  }

  lemma Pushed(up: seq<Note>, note: Note, n: nat)
    ensures Registering(up + [note], n) <==> Registering(up, n) || (note.Register? && note.name == n)
    ensures Asking(up + [note], n) <==> Asking(up, n) || note == Ask(n)
  {
    var up' := up + [note];
    assert up'[|up|] == note;
    if Registering(up, n) {
      var i :| 0 <= i < |up| && up[i].Register? && up[i].name == n;
      assert up'[i] == up[i];
    }
  }

  lemma AnsweringPush(down: seq<Told>, t: Told, n: nat)
    ensures Answering(down + [t], n) <==> Answering(down, n) || t.name == n
  {
    var down' := down + [t];
    assert down'[|down|] == t;
    if Answering(down, n) {
      var i :| 0 <= i < |down| && down[i].name == n;
      assert down'[i] == down[i];
    }
  }

  lemma AnsweringPop(down: seq<Told>, n: nat)
    requires down != []
    ensures Answering(down, n) <==> Answering(down[1..], n) || down[0].name == n
  {
    if Answering(down, n) {
      var i :| 0 <= i < |down| && down[i].name == n;
      assert i > 0 ==> down[1..][i - 1] == down[i];
    }
    if Answering(down[1..], n) {
      var i :| 0 <= i < |down[1..]| && down[1..][i].name == n;
      assert down[i + 1] == down[1..][i];
    }
  }

  /** A registration by the harbor itself. */
  lemma RegisterKeeps(h: nat, nd: Node, master: map<nat, nat>, joined: set<nat>, cut: set<nat>, told: set<nat>, name: nat, handle: nat, n: nat)
    requires NameInv(h, nd, master, joined, cut, told, n)
    ensures NameInv(h, RegisterName(nd, name, handle), master, joined, cut, told, n)
  {
    hide LastTold, Registering, Asking, Answering, Messages, Flush;
    Pushed(nd.up, Register(name, handle), n);
    if n == name {
      Resolved(h, nd, n, handle);
    }
  }

  lemma SendKeeps(h: nat, nd: Node, master: map<nat, nat>, joined: set<nat>, cut: set<nat>, told: set<nat>, name: nat, message: nat, n: nat)
    requires NameInv(h, nd, master, joined, cut, told, n)
    ensures NameInv(h, SendName(h, nd, name, message), master, joined, cut, told, n)
  {
    hide LastTold, Registering, Asking, Answering, Messages, Routed;
    Pushed(nd.up, Ask(name), n);
    var v := Value(nd, name);
    Pushed(nd.up, Locate(v / HARBOR_UNIT), n);
    MessagesAppend(Handled(nd, n), [Delivery(message, v, Routed(h, nd.peers, v))]);
    MessagesOne(Delivery(message, v, Routed(h, nd.peers, v)));
    assert Messages(Handled(nd, n)) + Pending(nd, n) + [message] == Messages(Handled(nd, n)) + (Pending(nd, n) + [message]);
  }

  lemma MessagesOne(d: Delivery)
    ensures Messages([d]) == [d.message]
  {
  }

  /** What the master has said arrives. */
  lemma HearKeeps(h: nat, nd: Node, master: map<nat, nat>, joined: set<nat>, cut: set<nat>, told: set<nat>, n: nat)
    requires NameInv(h, nd, master, joined, cut, told, n) && nd.down != []
    ensures NameInv(h, Resolve(nd, nd.down[0].name, nd.down[0].handle).(down := nd.down[1..]), master, joined, cut, told, n)
  {
    hide LastTold, Registering, Asking, Answering, Messages, Flush;
    LastToldPop(nd.down, n, Value(nd, n));
    AnsweringPop(nd.down, n);
    if n == nd.down[0].name {
      Resolved(h, nd, n, nd.down[0].handle);
    }
  }

  /** A broadcast, after the note that caused it has been taken from the channel. */
  lemma BroadcastKeeps(k: nat, nd: Node, up: seq<Note>, master: map<nat, nat>, joined: set<nat>, cut: set<nat>, told: set<nat>, t: Told, n: nat)
    requires NameInv(k, nd, master, joined, cut, told, n) && told <= joined + cut && t.handle > 0
    requires up == nd.up || (nd.up != [] && up == nd.up[1..] && (nd.up[0].Ask? || nd.up[0].Register?) && nd.up[0].name == t.name)
    requires k !in joined && k !in cut ==> up == nd.up && nd.down == []
    ensures NameInv(k, nd.(up := up, down := if k in joined then nd.down + [t] else nd.down), master[t.name := t.handle], joined, cut,
                    if n == t.name then joined else told, n)
  {
    hide LastTold, Registering, Asking, Answering, Messages;
    LastToldPush(nd.down, t, n, Value(nd, n));
    AnsweringPush(nd.down, t, n);
    NoAnswer(n);
    if nd.up != [] {
      Popped(nd.up, n);
    }
  }

  lemma NoAnswer(n: nat)
    ensures !Answering([], n)
  {
  }

  /** A question for a name the master does not know. */
  lemma UnknownKeeps(h: nat, nd: Node, master: map<nat, nat>, joined: set<nat>, cut: set<nat>, told: set<nat>, n: nat)
    requires NameInv(h, nd, master, joined, cut, told, n) && nd.up != [] && nd.up[0].Ask? && nd.up[0].name !in master && (h in joined || h in cut)
    ensures NameInv(h, nd.(up := nd.up[1..]), master, joined, cut, told, n)
  {
    hide LastTold, Registering, Asking, Answering, Messages;
    Popped(nd.up, n);
  }

  lemma JoinKeeps(k: nat, nd: Node, up: seq<Note>, master: map<nat, nat>, joined: set<nat>, cut: set<nat>, told: set<nat>, h: nat, n: nat)
    requires NameInv(k, nd, master, joined, cut, told, n) && (up == nd.up || (nd.up != [] && nd.up[0].Join? && up == nd.up[1..]))
    ensures NameInv(k, nd.(up := up), master, joined + {h}, cut, told, n)
  {
    hide LastTold, Registering, Asking, Answering, Messages;
    if nd.up != [] {
      Popped(nd.up, n);
    }
  }

  /** A step of a harbor changes nothing for the others. */
  lemma NodeStep(s: System, h: nat, nd: Node)
    requires Inv(s) && h in s.nodes && NodeInv(h, nd, s)
    ensures Inv(s.(nodes := s.nodes[h := nd]))
  {
    hide NameInv;
    var s' := s.(nodes := s.nodes[h := nd]);
    forall k | k in s'.nodes
      ensures NodeInv(k, s'.nodes[k], s')
    {
      SameMaster(k, s'.nodes[k], s, s');
    }
  }

  lemma SameMaster(k: nat, nd: Node, s: System, s': System)
    requires NodeInv(k, nd, s) && s'.master == s.master && s'.joined == s.joined && s'.cut == s.cut && s'.told == s.told
    ensures NodeInv(k, nd, s')
  {
    hide NameInv;
  }

  lemma HarborStepKeeps(s: System, a: Action)
    requires Inv(s) && !a.MasterGets?
    ensures Inv(Do(s, a))
  {
    hide NameInv, RegisterName, SendName, Resolve, MasterInv;
    if a.h in s.nodes {
      var h, nd := a.h, s.nodes[a.h];
      assert NodeInv(h, nd, s);
      match a {
        case DoRegister(_, name, handle) =>
          if handle >= HARBOR_UNIT {
            RegisterNode(s, h, nd, name, handle);
            NodeStep(s, h, RegisterName(nd, name, handle));
          }
        case DoSend(_, name, message) =>
          SendNode(s, h, nd, name, message);
          NodeStep(s, h, SendName(h, nd, name, message));
        case HarborGets(_) =>
          if nd.down != [] {
            HearNode(s, h, nd);
            NodeStep(s, h, Resolve(nd, nd.down[0].name, nd.down[0].handle).(down := nd.down[1..]));
          }
        case PeerUp(_, peer) =>
          if peer != h {
            PeerNode(s, h, nd, peer);
            NodeStep(s, h, nd.(peers := nd.peers + {peer}));
          }
      }
    }
  }

  lemma RegisterNode(s: System, h: nat, nd: Node, name: nat, handle: nat)
    requires NodeInv(h, nd, s) && handle > 0
    ensures NodeInv(h, RegisterName(nd, name, handle), s)
  {
    hide NameInv;
    forall n: nat
      ensures NameInv(h, RegisterName(nd, name, handle), s.master, s.joined, s.cut, ToldOf(s.told, n), n)
    {
      RegisterKeeps(h, nd, s.master, s.joined, s.cut, ToldOf(s.told, n), name, handle, n);
    }
  }

  lemma SendNode(s: System, h: nat, nd: Node, name: nat, message: nat)
    requires NodeInv(h, nd, s)
    ensures NodeInv(h, SendName(h, nd, name, message), s)
  {
    hide NameInv;
    forall n: nat
      ensures NameInv(h, SendName(h, nd, name, message), s.master, s.joined, s.cut, ToldOf(s.told, n), n)
    {
      SendKeeps(h, nd, s.master, s.joined, s.cut, ToldOf(s.told, n), name, message, n);
    }
  }

  lemma HearNode(s: System, h: nat, nd: Node)
    requires NodeInv(h, nd, s) && nd.down != []
    ensures NodeInv(h, Resolve(nd, nd.down[0].name, nd.down[0].handle).(down := nd.down[1..]), s)
  {
    hide NameInv;
    forall n: nat
      ensures NameInv(h, Resolve(nd, nd.down[0].name, nd.down[0].handle).(down := nd.down[1..]), s.master, s.joined, s.cut, ToldOf(s.told, n), n)
    {
      HearKeeps(h, nd, s.master, s.joined, s.cut, ToldOf(s.told, n), n);
    }
  }

  lemma PeerNode(s: System, h: nat, nd: Node, peer: nat)
    requires NodeInv(h, nd, s) && peer != h
    ensures NodeInv(h, nd.(peers := nd.peers + {peer}), s)
  {
    forall n: nat
      ensures NameInv(h, nd.(peers := nd.peers + {peer}), s.master, s.joined, s.cut, ToldOf(s.told, n), n)
    {
      assert NameInv(h, nd, s.master, s.joined, s.cut, ToldOf(s.told, n), n);
    }
  }

  lemma BroadcastNode(s: System, k: nat, nd: Node, up: seq<Note>, t: Told, s': System)
    requires NodeInv(k, nd, s) && MasterInv(s) && t.handle > 0
    requires up == nd.up || (nd.up != [] && up == nd.up[1..] && (nd.up[0].Ask? || nd.up[0].Register?) && nd.up[0].name == t.name)
    requires s'.master == s.master[t.name := t.handle] && s'.joined == s.joined && s'.cut == s.cut && s'.told == s.told[t.name := s.joined]
    requires k !in s.joined && k !in s.cut ==> up == nd.up
    ensures NodeInv(k, nd.(up := up, down := if k in s.joined then nd.down + [t] else nd.down), s')
  {
    hide NameInv;
    var nd' := nd.(up := up, down := if k in s.joined then nd.down + [t] else nd.down);
    forall n: nat
      ensures NameInv(k, nd', s'.master, s'.joined, s'.cut, ToldOf(s'.told, n), n)
    {
      BroadcastKeeps(k, nd, up, s.master, s.joined, s.cut, ToldOf(s.told, n), t, n);
    }
  }

  lemma BroadcastStep(s: System, h: nat, t: Told, taken: seq<Registration>)
    requires Inv(s) && h in s.nodes && (h in s.joined || h in s.cut) && t.handle > 0
    requires var up := s.nodes[h].up; up != [] && (up[0].Ask? || up[0].Register?) && up[0].name == t.name
    ensures var popped := s.nodes[h := s.nodes[h].(up := s.nodes[h].up[1..])];
            Inv(Broadcast(s.(nodes := popped, master := s.master[t.name := t.handle], taken := taken), t))
  {
    hide NameInv, NodeInv;
    var popped := s.nodes[h := s.nodes[h].(up := s.nodes[h].up[1..])];
    var s' := Broadcast(s.(nodes := popped, master := s.master[t.name := t.handle], taken := taken), t);
    forall k | k in s'.nodes
      ensures NodeInv(k, s'.nodes[k], s')
    {
      BroadcastNode(s, k, s.nodes[k], popped[k].up, t, s');
    }
  }

  lemma JoinNode(s: System, k: nat, nd: Node, up: seq<Note>, h: nat, s': System)
    requires NodeInv(k, nd, s) && (if k == h then nd.up != [] && nd.up[0].Join? && up == nd.up[1..] else up == nd.up)
    requires s'.master == s.master && s'.joined == s.joined + {h} && s'.cut == s.cut && s'.told == s.told
    ensures NodeInv(k, nd.(up := up), s')
  {
    hide NameInv;
    forall n: nat
      ensures NameInv(k, nd.(up := up), s'.master, s'.joined, s'.cut, ToldOf(s'.told, n), n)
    {
      JoinKeeps(k, nd, up, s.master, s.joined, s.cut, ToldOf(s.told, n), h, n);
    }
  }

  lemma JoinStep(s: System, h: nat)
    requires Inv(s) && h in s.nodes && s.nodes[h].up != [] && s.nodes[h].up[0].Join?
    ensures Inv(s.(nodes := s.nodes[h := s.nodes[h].(up := s.nodes[h].up[1..])], joined := s.joined + {h}))
  {
    FirstNote(s, h);
    hide NameInv, NodeInv;
    var s' := s.(nodes := s.nodes[h := s.nodes[h].(up := s.nodes[h].up[1..])], joined := s.joined + {h});
    forall k | k in s'.nodes
      ensures NodeInv(k, s'.nodes[k], s')
    {
      JoinNode(s, k, s.nodes[k], s'.nodes[k].up, h, s');
    }
  }

  /** A request for the address of harbor l. */
  lemma LocateKeeps(k: nat, nd: Node, up: seq<Note>, master: map<nat, nat>, joined: set<nat>, cut: set<nat>, told: set<nat>, l: nat, n: nat)
    requires NameInv(k, nd, master, joined, cut, told, n) && (up == nd.up || (nd.up != [] && nd.up[0].Locate? && up == nd.up[1..]))
    ensures NameInv(k, nd.(up := up), master, joined - {l}, if l in joined then cut + {l} else cut, told, n)
  {
    hide LastTold, Registering, Asking, Answering, Messages;
    if nd.up != [] {
      Popped(nd.up, n);
    }
  }

  lemma LocateNode(s: System, k: nat, nd: Node, up: seq<Note>, l: nat, s': System)
    requires NodeInv(k, nd, s) && (up == nd.up || (nd.up != [] && nd.up[0].Locate? && up == nd.up[1..]))
    requires s'.master == s.master && s'.joined == s.joined - {l} && s'.cut == (if l in s.joined then s.cut + {l} else s.cut) && s'.told == s.told
    ensures NodeInv(k, nd.(up := up), s')
  {
    hide NameInv;
    forall n: nat
      ensures NameInv(k, nd.(up := up), s'.master, s'.joined, s'.cut, ToldOf(s'.told, n), n)
    {
      LocateKeeps(k, nd, up, s.master, s.joined, s.cut, ToldOf(s.told, n), l, n);
    }
  }

  lemma LocateStep(s: System, h: nat, l: nat)
    requires Inv(s) && h in s.nodes && s.nodes[h].up != [] && s.nodes[h].up[0] == Locate(l)
    ensures Inv(Receive(s.(nodes := s.nodes[h := s.nodes[h].(up := s.nodes[h].up[1..])]), h, Locate(l)))
  {
    hide NameInv, NodeInv;
    var s' := Receive(s.(nodes := s.nodes[h := s.nodes[h].(up := s.nodes[h].up[1..])]), h, Locate(l));
    forall k | k in s'.nodes
      ensures NodeInv(k, s'.nodes[k], s')
    {
      LocateNode(s, k, s.nodes[k], s'.nodes[k].up, l, s');
    }
  }

  lemma UnknownNode(s: System, h: nat, nd: Node)
    requires NodeInv(h, nd, s) && nd.up != [] && nd.up[0].Ask? && nd.up[0].name !in s.master && (h in s.joined || h in s.cut)
    ensures NodeInv(h, nd.(up := nd.up[1..]), s)
  {
    hide NameInv;
    forall n: nat
      ensures NameInv(h, nd.(up := nd.up[1..]), s.master, s.joined, s.cut, ToldOf(s.told, n), n)
    {
      UnknownKeeps(h, nd, s.master, s.joined, s.cut, ToldOf(s.told, n), n);
    }
  }

  lemma FirstNote(s: System, h: nat)
    requires Inv(s) && h in s.nodes && s.nodes[h].up != []
    ensures s.nodes[h].up[0].Join? <==> h !in s.joined && h !in s.cut
    ensures s.nodes[h].up[0].Register? ==> s.nodes[h].up[0].handle > 0
  {
    hide NameInv;
    assert NodeInv(h, s.nodes[h], s);
  }

  lemma MasterStepKeeps(s: System, a: Action)
    requires Inv(s) && a.MasterGets?
    ensures Inv(Do(s, a))
  {
    hide NameInv, NodeInv, Broadcast;
    var h := a.h;
    if h in s.nodes && s.nodes[h].up != [] {
      var nd := s.nodes[h];
      FirstNote(s, h);
      match nd.up[0] {
        case Join => JoinStep(s, h);
        case Locate(k) => LocateStep(s, h, k);
        case Ask(n) =>
          if n in s.master {
            BroadcastStep(s, h, Told(n, s.master[n]), s.taken);
            assert s.master[n := s.master[n]] == s.master;
          } else {
            assert NodeInv(h, nd, s);
            UnknownNode(s, h, nd);
            NodeStep(s, h, nd.(up := nd.up[1..]));
          }
        case Register(n, handle) => BroadcastStep(s, h, Told(n, handle), s.taken + [Registration(h, n, handle)]);
      }
    }
  }

  /** The invariant holds after any run of any set of harbors. */
  lemma {:induction false} RunKeeps(harbors: set<nat>, run: seq<Action>)
    ensures Inv(After(harbors, run))
    decreases |run|
  {
    if run == [] {
      StartInv(harbors);
    } else {
      var k := |run| - 1;
      RunKeeps(harbors, run[..k]);
      if run[k].MasterGets? {
        MasterStepKeeps(After(harbors, run[..k]), run[k]);
      } else {
        HarborStepKeeps(After(harbors, run[..k]), run[k]);
      }
    }
  }

  lemma StartInv(harbors: set<nat>)
    ensures Inv(Start(harbors))
  {
    var s := Start(harbors);
    forall h | h in s.nodes
      ensures NodeInv(h, s.nodes[h], s)
    {
      forall n: nat
        ensures NameInv(h, s.nodes[h], s.master, s.joined, s.cut, ToldOf(s.told, n), n)
      {
        assert Messages([]) + [] == [];
      }
    }
  }

  // ---------- what a run brings about ----------

  ghost predicate Quiet(s: System)
  {
    forall h :: h in s.nodes ==> s.nodes[h].up == [] && s.nodes[h].down == []
  }

  /**
   When nothing is in flight, all harbors that know a name and have not been cut off know what the master knows: those that have been
   told since the last registration, and no others. Messages still wait there only for names that no one has registered.
   */
  lemma Convergence(harbors: set<nat>, run: seq<Action>, h: nat, n: nat)
    requires var s := After(harbors, run); Quiet(s) && h in s.nodes && h !in s.cut
    ensures var s := After(harbors, run); Value(s.nodes[h], n) == if h in ToldOf(s.told, n) && n in s.master then s.master[n] else 0
    ensures var s := After(harbors, run); Pending(s.nodes[h], n) != [] ==> n !in s.master
  {
    hide After, Messages;
    var s := After(harbors, run);
    RunKeeps(harbors, run);
    assert NodeInv(h, s.nodes[h], s);
    assert NameInv(h, s.nodes[h], s.master, s.joined, s.cut, ToldOf(s.told, n), n);
    assert !Answering([], n);
  }

  // ---------- everything arrives ----------

  /** What is on its way up from the harbors, and down to them. */
  ghost function Upward(s: System): set<(nat, nat)>
  {
    set h, i: nat | h in s.nodes && i < |s.nodes[h].up| :: (h, i)
  }

  ghost function Downward(s: System): set<(nat, nat)>
  {
    set h, i: nat | h in s.nodes && i < |s.nodes[h].down| :: (h, i)
  }

  lemma MasterTakes(s: System, h: nat)
    requires h in s.nodes && s.nodes[h].up != []
    ensures |Upward(Do(s, MasterGets(h)))| < |Upward(s)|
  {
    var s' := Do(s, MasterGets(h));
    forall k | k in s'.nodes
      ensures k in s.nodes && s'.nodes[k].up == if k == h then s.nodes[k].up[1..] else s.nodes[k].up
    {
    }
    var n := |s.nodes[h].up| - 1;
    assert (h, n) in Upward(s) && (h, n) !in Upward(s');
    assert Upward(s') <= Upward(s);
    Smaller(Upward(s'), Upward(s));
  }

  lemma HarborTakes(s: System, h: nat)
    requires h in s.nodes && s.nodes[h].down != []
    ensures Upward(Do(s, HarborGets(h))) == Upward(s) && |Downward(Do(s, HarborGets(h)))| < |Downward(s)|
  {
    hide Flush;
    var s' := Do(s, HarborGets(h));
    forall k | k in s'.nodes
      ensures k in s.nodes && s'.nodes[k].up == s.nodes[k].up && s'.nodes[k].down == if k == h then s.nodes[k].down[1..] else s.nodes[k].down
    {
    }
    var n := |s.nodes[h].down| - 1;
    assert (h, n) in Downward(s) && (h, n) !in Downward(s');
    assert Downward(s') <= Downward(s);
    Smaller(Downward(s'), Downward(s));
  }

  /** After any run, the notes and values under way can all be delivered: some deliveries lead to a state in which nothing is in flight. */
  lemma {:induction false} Settles(harbors: set<nat>, run: seq<Action>) returns (more: seq<Action>)
    ensures Quiet(After(harbors, run + more)) && forall i :: 0 <= i < |more| ==> more[i].MasterGets? || more[i].HarborGets?
    decreases |Upward(After(harbors, run))|, |Downward(After(harbors, run))|
  {
    hide Do, Upward, Downward;
    var s := After(harbors, run);
    if Quiet(s) {
      more := [];
      assert run + more == run;
    } else {
      var h :| h in s.nodes && (s.nodes[h].up != [] || s.nodes[h].down != []);
      var a := if s.nodes[h].up != [] then MasterGets(h) else HarborGets(h);
      if s.nodes[h].up != [] {
        MasterTakes(s, h);
      } else {
        HarborTakes(s, h);
      }
      assert (run + [a])[..|run|] == run;
      var rest := Settles(harbors, run + [a]);
      more := [a] + rest;
      assert run + [a] + rest == run + more;
    }
  }

  // ---------- whose handle it is ----------

  /** The registrations that the actions of a run make for harbor h, in their order. */
  function Requested(run: seq<Action>, h: nat): seq<Registration>
  {
    if run == [] then [] else
      var a := run[|run| - 1];
      Requested(run[..|run| - 1], h) + if a.DoRegister? && a.h == h && a.handle >= HARBOR_UNIT then [Registration(h, a.name, a.handle)] else []
  }

  /** The registrations of harbor h among them. */
  function OfHarbor(taken: seq<Registration>, h: nat): seq<Registration>
  {
    if taken == [] then [] else
      var r := taken[|taken| - 1];
      OfHarbor(taken[..|taken| - 1], h) + if r.h == h then [r] else []
  }

  /** The registrations on their way from harbor h to the master. */
  function InFlight(up: seq<Note>, h: nat): seq<Registration>
  {
    if up == [] then [] else
      (if up[0].Register? then [Registration(h, up[0].name, up[0].handle)] else []) + InFlight(up[1..], h)
  }

  lemma {:induction false} InFlightAppend(up: seq<Note>, note: Note, h: nat)
    ensures InFlight(up + [note], h) == InFlight(up, h) + if note.Register? then [Registration(h, note.name, note.handle)] else []
  {
    if up == [] {
      assert up + [note] == [note] && [note][1..] == [];
    } else {
      assert (up + [note])[1..] == up[1..] + [note] && (up + [note])[0] == up[0];
      InFlightAppend(up[1..], note, h);
      var head := if up[0].Register? then [Registration(h, up[0].name, up[0].handle)] else [];
      var last := if note.Register? then [Registration(h, note.name, note.handle)] else [];
      FlightStep(up, h);
      FlightStep(up + [note], h);
      hide InFlight;
      assert head + (InFlight(up[1..], h) + last) == (head + InFlight(up[1..], h)) + last;
    }
  }

  lemma FlightStep(up: seq<Note>, h: nat)
    requires up != []
    ensures InFlight(up, h) == (if up[0].Register? then [Registration(h, up[0].name, up[0].handle)] else []) + InFlight(up[1..], h)
  {
  }

  lemma OfHarborAppend(taken: seq<Registration>, r: Registration, h: nat)
    ensures OfHarbor(taken + [r], h) == OfHarbor(taken, h) + if r.h == h then [r] else []
  {
    assert (taken + [r])[..|taken|] == taken;
  }

  /** What harbor h has registered is what the master has taken in from it and then what is on its way. */
  ghost predicate Accounted(s: System, regs: seq<Registration>, h: nat)
  {
    h in s.nodes && regs == OfHarbor(s.taken, h) + InFlight(s.nodes[h].up, h)
  }

  lemma StepAccounted(s: System, a: Action, regs: seq<Registration>, h: nat)
    requires Accounted(s, regs, h)
    ensures Accounted(Do(s, a), regs + if a.DoRegister? && a.h == h && a.handle >= HARBOR_UNIT then [Registration(h, a.name, a.handle)] else [], h)
  {
    hide OfHarbor, InFlight;
    if a.h in s.nodes {
      var nd := s.nodes[a.h];
      match a
      case DoRegister(_, n, handle) => InFlightAppend(nd.up, Register(n, handle), h);
      case DoSend(_, n, _) =>
        InFlightAppend(nd.up, Ask(n), h);
        InFlightAppend(nd.up, Locate(Value(nd, n) / HARBOR_UNIT), h);
      case MasterGets(_) =>
        if nd.up != [] {
          ReceiveAccounted(s, a.h, regs, h);
        }
      case HarborGets(_) =>
      case PeerUp(_, _) =>
    }
  }

  lemma ReceiveAccounted(s: System, from: nat, regs: seq<Registration>, h: nat)
    requires Accounted(s, regs, h) && from in s.nodes && s.nodes[from].up != []
    ensures var nd := s.nodes[from];
            Accounted(Receive(s.(nodes := s.nodes[from := nd.(up := nd.up[1..])]), from, nd.up[0]), regs, h)
  {
    hide OfHarbor, InFlight;
    FlightStep(s.nodes[from].up, from);
    var note := s.nodes[from].up[0];
    if note.Register? {
      OfHarborAppend(s.taken, Registration(from, note.name, note.handle), h);
    }
  }

  /**
   In every run the registrations that the master has taken in from a harbor are the first ones that were made there, and those on their
   way to it are the others, each with the name and the handle that was given and in their order.
   */
  lemma {:induction false} RegistrationsArrive(harbors: set<nat>, run: seq<Action>, h: nat)
    requires h in harbors
    ensures var s := After(harbors, run); h in s.nodes && Requested(run, h) == OfHarbor(s.taken, h) + InFlight(s.nodes[h].up, h)
    decreases |run|
  {
    hide Do;
    if run == [] {
      assert [Join][1..] == [];
    } else {
      var k := |run| - 1;
      RegistrationsArrive(harbors, run[..k], h);
      assert Accounted(After(harbors, run[..k]), Requested(run[..k], h), h);
      StepAccounted(After(harbors, run[..k]), run[k], Requested(run[..k], h), h);
    }
  }

  /** The registration of n that the master has taken in last, if any, is what it has. */
  ghost predicate MasterLast(s: System, n: nat)
  {
    && (n in s.master ==> exists i :: LastTaken(s.taken, n, i))
    && (forall i: nat :: LastTaken(s.taken, n, i) ==> n in s.master && s.master[n] == s.taken[i].handle)
  }

  ghost predicate LastTaken(taken: seq<Registration>, n: nat, i: nat)
  {
    i < |taken| && taken[i].name == n && forall j :: i < j < |taken| ==> taken[j].name != n
  }

  lemma LastTakenAppend(taken: seq<Registration>, r: Registration, n: nat, i: nat)
    ensures LastTaken(taken + [r], n, i) <==> if r.name == n then i == |taken| else LastTaken(taken, n, i)
    ensures LastTaken(taken, n, i) ==> i < |taken|
  {
    var all := taken + [r];
    assert all[|taken|] == r;
    if r.name != n && LastTaken(all, n, i) {
      assert i < |taken| && forall j :: i < j < |taken| ==> all[j] == taken[j];
    }
  }

  lemma StepMasterLast(s: System, a: Action, n: nat)
    requires MasterLast(s, n)
    ensures MasterLast(Do(s, a), n)
  {
    hide LastTaken;
    if a.h in s.nodes && a.MasterGets? && s.nodes[a.h].up != [] && s.nodes[a.h].up[0].Register? {
      var note := s.nodes[a.h].up[0];
      var r := Registration(a.h, note.name, note.handle);
      forall i: nat
        ensures LastTaken(s.taken + [r], n, i) <==> if r.name == n then i == |s.taken| else LastTaken(s.taken, n, i)
        ensures LastTaken(s.taken, n, i) ==> i < |s.taken|
      {
        LastTakenAppend(s.taken, r, n, i);
      }
      assert Do(s, a).taken == s.taken + [r];
      if r.name == n {
        assert LastTaken(Do(s, a).taken, n, |s.taken|);
      } else if n in s.master {
        var i: nat :| LastTaken(s.taken, n, i);
        assert LastTaken(Do(s, a).taken, n, i);
      }
    }
  }

  lemma {:induction false} MasterHasLast(harbors: set<nat>, run: seq<Action>, n: nat)
    ensures MasterLast(After(harbors, run), n)
    decreases |run|
  {
    hide Do;
    if run != [] {
      MasterHasLast(harbors, run[..|run| - 1], n);
      StepMasterLast(After(harbors, run[..|run| - 1]), run[|run| - 1], n);
    }
  }

  /** Among what h has requested, the last registration of n is that of the last such action. */
  lemma {:induction false} LastRequested(run: seq<Action>, h: nat, n: nat, last: nat) returns (j: nat)
    requires last < |run| && run[last].DoRegister? && run[last].h == h && run[last].name == n && run[last].handle >= HARBOR_UNIT
    requires forall i :: last < i < |run| && run[i].DoRegister? && run[i].h == h && run[i].handle >= HARBOR_UNIT ==> run[i].name != n
    ensures LastTaken(Requested(run, h), n, j) && Requested(run, h)[j].handle == run[last].handle
    decreases |run|
  {
    hide LastTaken;
    var k := |run| - 1;
    var before := Requested(run[..k], h);
    assert before + [] == before;
    if last == k {
      j := |before|;
      LastTakenAppend(before, Registration(h, n, run[k].handle), n, j);
    } else {
      j := LastRequested(run[..k], h, n, last);
      if run[k].DoRegister? && run[k].h == h && run[k].handle >= HARBOR_UNIT {
        LastTakenAppend(before, Registration(h, run[k].name, run[k].handle), n, j);
      }
      LastInside(before, n, j);
    }
  }

  lemma LastInside(taken: seq<Registration>, n: nat, i: nat)
    requires LastTaken(taken, n, i)
    ensures i < |taken| && taken[i].name == n
  {
  }

  lemma {:induction false} RequestedByActions(run: seq<Action>, h: nat, j: nat) returns (i: nat)
    requires j < |Requested(run, h)|
    ensures i < |run| && run[i].DoRegister? && run[i].h == h == Requested(run, h)[j].h && run[i].handle >= HARBOR_UNIT && run[i].name == Requested(run, h)[j].name
    decreases |run|
  {
    var k := |run| - 1;
    if j < |Requested(run[..k], h)| {
      i := RequestedByActions(run[..k], h, j);
    } else {
      i := k;
    }
  }

  /** What is taken in from h is found among the registrations of h. */
  lemma {:induction false} FoundOfHarbor(taken: seq<Registration>, i: nat) returns (j: nat)
    requires i < |taken|
    ensures var own := OfHarbor(taken, taken[i].h); j < |own| && own[j] == taken[i]
    decreases |taken|
  {
    var k := |taken| - 1;
    if i == k {
      j := |OfHarbor(taken[..k], taken[i].h)|;
    } else {
      j := FoundOfHarbor(taken[..k], i);
    }
  }

  /** If all registrations of n are by h, the last of them is the last one of h. */
  lemma {:induction false} LastOfHarbor(taken: seq<Registration>, h: nat, n: nat, j: nat) returns (i: nat)
    requires LastTaken(OfHarbor(taken, h), n, j) && forall l :: 0 <= l < |taken| && taken[l].name == n ==> taken[l].h == h
    ensures j < |OfHarbor(taken, h)| && LastTaken(taken, n, i) && taken[i] == OfHarbor(taken, h)[j]
    decreases |taken|
  {
    hide LastTaken;
    LastInside(OfHarbor(taken, h), n, j);
    var k := |taken| - 1;
    var before, r := OfHarbor(taken[..k], h), taken[k];
    assert taken == taken[..k] + [r] && before + [] == before;
    LastTakenAppend(before, r, n, j);
    if r.name == n {
      i := k;
    } else {
      i := LastOfHarbor(taken[..k], h, n, j);
      LastInside(taken[..k], n, i);
    }
    LastTakenAppend(taken[..k], r, n, i);
  }

  lemma {:induction false} TakenFromNodes(harbors: set<nat>, run: seq<Action>)
    ensures var s := After(harbors, run); s.nodes.Keys == harbors && forall i :: 0 <= i < |s.taken| ==> s.taken[i].h in harbors
    decreases |run|
  {
    hide Resolve, RegisterName, SendName;
    if run != [] {
      TakenFromNodes(harbors, run[..|run| - 1]);
    }
  }

  /**
   If one harbor alone registers a name, then, when nothing is in flight, every harbor that was told and has not been cut off has the
   handle of the last registration that was made there.
   */
  lemma OnlyRegistrar(harbors: set<nat>, run: seq<Action>, h: nat, n: nat, last: nat, k: nat)
    requires h in harbors && last < |run| && run[last].DoRegister? && run[last].h == h && run[last].name == n && run[last].handle >= HARBOR_UNIT
    requires forall i :: 0 <= i < |run| && run[i].DoRegister? && run[i].name == n && run[i].handle >= HARBOR_UNIT ==> run[i].h == h && i <= last
    requires var s := After(harbors, run); Quiet(s) && k in s.nodes && k !in s.cut && k in ToldOf(s.told, n)
    ensures Value(After(harbors, run).nodes[k], n) == run[last].handle
  {
    hide After, OfHarbor, LastTaken, Requested;
    var s := After(harbors, run);
    TakenFromNodes(harbors, run);
    RegistrationsArrive(harbors, run, h);
    assert OfHarbor(s.taken, h) + [] == OfHarbor(s.taken, h);
    var j := LastRequested(run, h, n, last);
    forall l | 0 <= l < |s.taken| && s.taken[l].name == n
      ensures s.taken[l].h == h
    {
      OneRegistrar(harbors, run, h, n, l);
    }
    var i := LastOfHarbor(s.taken, h, n, j);
    MasterHasLast(harbors, run, n);
    Convergence(harbors, run, k, n);
  }

  lemma OneRegistrar(harbors: set<nat>, run: seq<Action>, h: nat, n: nat, l: nat)
    requires forall i :: 0 <= i < |run| && run[i].DoRegister? && run[i].name == n && run[i].handle >= HARBOR_UNIT ==> run[i].h == h
    requires var s := After(harbors, run); l < |s.taken| && s.taken[l].name == n
    ensures After(harbors, run).taken[l].h == h
  {
    hide After, OfHarbor, Requested, InFlight;
    var s := After(harbors, run);
    var from := s.taken[l].h;
    TakenFromNodes(harbors, run);
    RegistrationsArrive(harbors, run, from);
    var j := FoundOfHarbor(s.taken, l);
    assert Requested(run, from)[j] == s.taken[l];
    var i := RequestedByActions(run, from, j);
  }

  /** At any time, of the messages sent to a name the first ones have been handled in the order of sending, and the others wait in that order for the name to be known. */
  lemma SendOrder(harbors: set<nat>, run: seq<Action>, h: nat, n: nat)
    requires h in After(harbors, run).nodes
    ensures var nd := After(harbors, run).nodes[h];
            Sent(nd, n) == Messages(Handled(nd, n)) + Pending(nd, n) && (Pending(nd, n) != [] ==> Value(nd, n) == 0)
  {
    hide After, Messages;
    var s := After(harbors, run);
    RunKeeps(harbors, run);
    assert NodeInv(h, s.nodes[h], s);
    assert NameInv(h, s.nodes[h], s.master, s.joined, s.cut, ToldOf(s.told, n), n);
  }

  /** The messages that the actions of a run send from harbor h to a name. */
  function SentBy(run: seq<Action>, h: nat, n: nat): seq<nat>
  {
    if run == [] then [] else
      var a := run[|run| - 1];
      SentBy(run[..|run| - 1], h, n) + if a.DoSend? && a.h == h && a.name == n then [a.message] else []
  }

  /** In every run all of them, and nothing else, are handled or wait. */
  lemma {:induction false} AllAccounted(harbors: set<nat>, run: seq<Action>, h: nat, n: nat)
    requires h in harbors
    ensures var s := After(harbors, run);
            h in s.nodes && SentBy(run, h, n) == Messages(Handled(s.nodes[h], n)) + Pending(s.nodes[h], n)
    decreases |run|
  {
    hide After, Messages;
    TakenFromNodes(harbors, run);
    SendOrder(harbors, run, h, n);
    SentExact(harbors, run, h, n);
  }

  lemma {:induction false} SentExact(harbors: set<nat>, run: seq<Action>, h: nat, n: nat)
    requires h in harbors
    ensures h in After(harbors, run).nodes && Sent(After(harbors, run).nodes[h], n) == SentBy(run, h, n)
    decreases |run|
  {
    hide Do;
    if run != [] {
      var k := |run| - 1;
      SentExact(harbors, run[..k], h, n);
      SentStep(After(harbors, run[..k]), run[k], h, n);
    }
  }

  lemma SentStep(s: System, a: Action, h: nat, n: nat)
    requires h in s.nodes
    ensures h in Do(s, a).nodes && Sent(Do(s, a).nodes[h], n) == Sent(s.nodes[h], n) + if a.DoSend? && a.h == h && a.name == n then [a.message] else []
  {
    hide Resolve, RegisterName, SendName, Receive, Sent;
    assert Sent(s.nodes[h], n) + [] == Sent(s.nodes[h], n);
    if a.h in s.nodes {
      var nd := s.nodes[a.h];
      match a
      case DoRegister(_, name, handle) =>
        RegisterSends(nd, name, handle);
        SentSame(nd, RegisterName(nd, name, handle), n);
      case DoSend(_, name, message) => SendSends(a.h, nd, name, message, n);
      case MasterGets(_) =>
        if nd.up != [] {
          ReceiveSends(s.(nodes := s.nodes[a.h := nd.(up := nd.up[1..])]), a.h, nd.up[0], h);
          SentSame(s.nodes[h], Do(s, a).nodes[h], n);
        }
      case HarborGets(_) =>
        if nd.down != [] {
          ResolveSends(nd, nd.down[0].name, nd.down[0].handle);
          SentSame(nd, Resolve(nd, nd.down[0].name, nd.down[0].handle).(down := nd.down[1..]), n);
        }
      case PeerUp(_, peer) => SentSame(nd, nd.(peers := nd.peers + {peer}), n);
    }
  }

  lemma SentSame(nd: Node, nd': Node, n: nat)
    requires nd'.sent == nd.sent
    ensures Sent(nd', n) == Sent(nd, n)
  {
  }

  lemma RegisterSends(nd: Node, n: nat, handle: nat)
    ensures RegisterName(nd, n, handle).sent == nd.sent
  {
  }

  lemma ResolveSends(nd: Node, n: nat, handle: nat)
    ensures Resolve(nd, n, handle).sent == nd.sent
  {
  }

  lemma ReceiveSends(s: System, from: nat, note: Note, h: nat)
    requires h in s.nodes
    ensures h in Receive(s, from, note).nodes && Receive(s, from, note).nodes[h].sent == s.nodes[h].sent
  {
  }

  lemma SendSends(id: nat, nd: Node, name: nat, message: nat, n: nat)
    ensures Sent(SendName(id, nd, name, message), n) == Sent(nd, n) + if name == n then [message] else []
  {
    assert Sent(nd, n) + [] == Sent(nd, n);
  }

  /** In every run a harbor has a connection to exactly the others that it has been connected to. */
  lemma {:induction false} Connections(harbors: set<nat>, run: seq<Action>, h: nat)
    requires h in harbors
    ensures h in After(harbors, run).nodes && forall p :: p in After(harbors, run).nodes[h].peers <==> p != h && PeerUp(h, p) in run
    decreases |run|
  {
    hide Do;
    if run != [] {
      var k := |run| - 1;
      Connections(harbors, run[..k], h);
      assert run == run[..k] + [run[k]];
      PeersStep(After(harbors, run[..k]), run[k], h);
    }
  }

  lemma PeersStep(s: System, a: Action, h: nat)
    requires h in s.nodes
    ensures h in Do(s, a).nodes
    ensures Do(s, a).nodes[h].peers == if a.PeerUp? && a.h == h && a.peer != h then s.nodes[h].peers + {a.peer} else s.nodes[h].peers
  {
    if a.h in s.nodes && a.MasterGets? && s.nodes[a.h].up != [] {
      ReceivePeers(s.(nodes := s.nodes[a.h := s.nodes[a.h].(up := s.nodes[a.h].up[1..])]), a.h, s.nodes[a.h].up[0], h);
    }
    hide Receive, Flush;
  }

  lemma ReceivePeers(s: System, from: nat, note: Note, h: nat)
    requires h in s.nodes
    ensures h in Receive(s, from, note).nodes && Receive(s, from, note).nodes[h].peers == s.nodes[h].peers
  {
  }

  /**
   A message to a known name goes at once to the handle that is known: locally if that is of this harbor, over the connection if there is
   one to its harbor, and nowhere otherwise.
   */
  lemma KnownSend(id: nat, nd: Node, n: nat, message: nat)
    requires Value(nd, n) != 0
    ensures var d := Handled(SendName(id, nd, n, message), n);
            && d[..|d| - 1] == Handled(nd, n) && d[|d| - 1].message == message && d[|d| - 1].handle == Value(nd, n)
            && (d[|d| - 1].route == Local <==> Value(nd, n) / HARBOR_UNIT == id)
            && (d[|d| - 1].route == Dropped <==> Value(nd, n) / HARBOR_UNIT != id && Value(nd, n) / HARBOR_UNIT !in nd.peers)
  {
  }

  /** A registration is the last word on its name for every harbor that has joined, once it has been delivered. */
  lemma LastWord(s: System, h: nat, k: nat, n: nat, handle: nat)
    requires Inv(s) && h in s.nodes && k in s.nodes && k in s.joined && s.nodes[h].up != [] && s.nodes[h].up[0] == Register(n, handle)
    ensures var s' := Do(s, MasterGets(h)); s'.master[n] == handle && LastTold(s'.nodes[k].down, n, Value(s'.nodes[k], n)) == handle
  {
    var popped := s.nodes[h := s.nodes[h].(up := s.nodes[h].up[1..])];
    LastToldPush(popped[k].down, Told(n, handle), n, Value(popped[k], n));
  }

  /** Waiting messages are dropped when the name turns out to belong to a harbor without a connection. */
  lemma WaitingDropped(nd: Node, n: nat, handle: nat)
    requires Pending(nd, n) != []
    ensures var d := Handled(Resolve(nd, n, handle), n)[|Handled(nd, n)|..];
            |d| == |Pending(nd, n)| && forall i :: 0 <= i < |d| ==>
              d[i].message == Pending(nd, n)[i] && (d[i].route == Dropped <==> handle / HARBOR_UNIT !in nd.peers) && d[i].route != Local
  {
    assert Handled(Resolve(nd, n, handle), n)[|Handled(nd, n)|..] == Flush(Pending(nd, n), handle, nd.peers);
  }

  /**
   In particular, in every run, the messages that wait at the harbor which then registers the name for a service of its own are all lost,
   while a message sent after the registration is delivered locally.
   */
  lemma OwnNameDrops(harbors: set<nat>, run: seq<Action>, h: nat, n: nat, handle: nat, message: nat)
    requires var s := After(harbors, run); h in s.nodes && Pending(s.nodes[h], n) != [] && handle >= HARBOR_UNIT && handle / HARBOR_UNIT == h
    ensures var nd := After(harbors, run).nodes[h];
            var nd' := RegisterName(nd, n, handle);
            && (forall i :: |Handled(nd, n)| <= i < |Handled(nd', n)| ==> Handled(nd', n)[i].route == Dropped)
            && Handled(SendName(h, nd', n, message), n)[|Handled(nd', n)|..] == [Delivery(message, handle, Local)]
  {
    hide NameInv, After;
    var s := After(harbors, run);
    RunKeeps(harbors, run);
    assert NodeInv(h, s.nodes[h], s);
    var nd := s.nodes[h];
    WaitingDropped(nd, n, handle);
    assert handle / HARBOR_UNIT !in nd.peers;
  }

  /** Such a run: a message is sent to a name before the same harbor registers it. */
  lemma EarlySendLost()
    ensures var run := [DoSend(1, 5, 7), DoRegister(1, 5, HARBOR_UNIT)];
            var s := After({1}, run);
            1 in s.nodes && Handled(s.nodes[1], 5) == [Delivery(7, HARBOR_UNIT, Dropped)]
  {
    var send, register := DoSend(1, 5, 7), DoRegister(1, 5, HARBOR_UNIT);
    assert [send, register][..1] == [send] && [send][..0] == [];
    var s0 := Start({1});
    assert After({1}, []) == s0;
    var s1 := Do(s0, send);
    assert After({1}, [send]) == s1;
    assert Pending(s1.nodes[1], 5) == [7];
  }

  // ---------- harbors that are cut off ----------

  ghost predicate Registers(a: Action, k: nat, n: nat)
  {
    a.DoRegister? && a.h == k && a.name == n && a.handle >= HARBOR_UNIT
  }

  /** The value that a harbor has for a name when all that is on its way to it has arrived. */
  function Outlook(nd: Node, n: nat): nat
  {
    LastTold(nd.down, n, Value(nd, n))
  }

  /** A harbor that has been cut off is told nothing more. */
  lemma CutStep(s: System, a: Action, k: nat, n: nat)
    requires Inv(s) && k in s.nodes && k in s.cut
    ensures var s' := Do(s, a); k in s'.nodes && k in s'.cut && (Registers(a, k, n) || Outlook(s'.nodes[k], n) == Outlook(s.nodes[k], n))
  {
    hide Outlook, NodeInv, Resolve, RegisterName, SendName, Receive;
    if a.h in s.nodes {
      match a
      case DoRegister(_, name, handle) =>
        if a.h == k && handle >= HARBOR_UNIT && name != n {
          RegisteredOutlook(s.nodes[k], name, handle, n);
        }
      case DoSend(_, name, message) => SentOutlook(a.h, s.nodes[a.h], name, message, n);
      case MasterGets(_) =>
        if s.nodes[a.h].up != [] {
          CutReceive(s, a.h, k, n);
        }
      case HarborGets(_) =>
        if s.nodes[a.h].down != [] {
          HeardOutlook(s.nodes[a.h], n);
        }
      case PeerUp(_, peer) => PeerOutlook(s.nodes[a.h], peer, n);
    }
  }

  lemma CutReceive(s: System, h: nat, k: nat, n: nat)
    requires Inv(s) && k in s.nodes && k in s.cut && h in s.nodes && s.nodes[h].up != []
    ensures var nd := s.nodes[h];
            var s' := Receive(s.(nodes := s.nodes[h := nd.(up := nd.up[1..])]), h, nd.up[0]);
            k in s'.nodes && k in s'.cut && Outlook(s'.nodes[k], n) == Outlook(s.nodes[k], n)
  {
    hide LastTold, NodeInv;
    FirstNote(s, h);
  }

  lemma SentOutlook(id: nat, nd: Node, name: nat, message: nat, n: nat)
    ensures Outlook(SendName(id, nd, name, message), n) == Outlook(nd, n)
  {
  }

  lemma HeardOutlook(nd: Node, n: nat)
    requires nd.down != []
    ensures Outlook(Resolve(nd, nd.down[0].name, nd.down[0].handle).(down := nd.down[1..]), n) == Outlook(nd, n)
  {
    hide LastTold;
    LastToldPop(nd.down, n, Value(nd, n));
  }

  lemma PeerOutlook(nd: Node, peer: nat, n: nat)
    ensures Outlook(nd.(peers := nd.peers + {peer}), n) == Outlook(nd, n)
  {
  }

  lemma RegisteredOutlook(nd: Node, name: nat, handle: nat, n: nat)
    requires name != n
    ensures Outlook(RegisterName(nd, name, handle), n) == Outlook(nd, n)
  {
  }

  /**
   From then on, in every run, it hears of no registration of another harbor: as long as it does not register a name itself, what it
   has or is to have for the name stays what it was.
   */
  lemma {:induction false} CutOffForGood(harbors: set<nat>, run: seq<Action>, more: seq<Action>, k: nat, n: nat)
    requires k in After(harbors, run).nodes && k in After(harbors, run).cut && forall i :: 0 <= i < |more| ==> !Registers(more[i], k, n)
    ensures var s := After(harbors, run + more);
            k in s.nodes && k in s.cut && k !in s.joined && Outlook(s.nodes[k], n) == Outlook(After(harbors, run).nodes[k], n)
    decreases |more|
  {
    hide Do, Outlook, NodeInv;
    RunKeeps(harbors, run + more);
    if more == [] {
      assert run + more == run;
    } else {
      var m := |more| - 1;
      assert (run + more)[..|run + more| - 1] == run + more[..m];
      CutOffForGood(harbors, run, more[..m], k, n);
      RunKeeps(harbors, run + more[..m]);
      CutStep(After(harbors, run + more[..m]), more[m], k, n);
    }
  }

  /**
   A harbor is cut off when the master takes in the request for its address. Such a request is sent exactly when a message to a known
   name is dropped for want of a connection.
   */
  lemma WhenCutOff(s: System, a: Action, k: nat)
    requires a.h in s.nodes && k in s.joined
    ensures k in Do(s, a).cut && k !in s.cut <==> a.MasterGets? && s.nodes[a.h].up != [] && s.nodes[a.h].up[0] == Locate(k) && k !in s.cut
    ensures a.DoSend? ==>
              var nd, nd' := s.nodes[a.h], Do(s, a).nodes[a.h];
              nd'.up == nd.up + [Locate(k)] <==>
                Value(nd, a.name) != 0 && Value(nd, a.name) / HARBOR_UNIT == k && k != a.h && k !in nd.peers
  {
    if a.DoSend? {
      var nd, nd' := s.nodes[a.h], Do(s, a).nodes[a.h];
      assert nd'.up != nd.up ==> nd'.up[|nd.up|] == nd'.up[|nd'.up| - 1];
    }
  }

  const AWAY := 2 * HARBOR_UNIT   // a handle of harbor 2

  /** Both harbors have joined, and 2 has registered name 5. */
  function Known(): System
  {
    System(map[1 := Node(map[], map[], {}, map[], map[], [], []),
               2 := Node(map[5 := AWAY], map[5 := []], {}, map[], map[5 := []], [Register(5, AWAY)], [])], map[], {1, 2}, {}, map[], [])
  }

  /** The registration has been broadcast, and has arrived at 1. */
  function Heard(): System
  {
    System(map[1 := Node(map[5 := AWAY], map[5 := []], {}, map[], map[5 := []], [], []),
               2 := Known().nodes[2].(up := [], down := [Told(5, AWAY)])], map[5 := AWAY], {1, 2}, {}, map[5 := {1, 2}], [Registration(2, 5, AWAY)])
  }

  /** Both harbors have joined. */
  function Joined(): System
  {
    System(map[1 := Node(map[], map[], {}, map[], map[], [], []), 2 := Node(map[], map[], {}, map[], map[], [], [])], map[], {1, 2}, {}, map[], [])
  }

  lemma JoinedNext()
    ensures Do(Do(Start({1, 2}), MasterGets(1)), MasterGets(2)) == Joined()
  {
    var s1 := Do(Start({1, 2}), MasterGets(1));
    var up: seq<Note> := [Join];
    assert up[1..] == [];
    assert s1.nodes[1] == Joined().nodes[1] && s1.joined == {1};
    var s2 := Do(s1, MasterGets(2));
    assert s2.nodes == Joined().nodes;
  }

  lemma KnownNext()
    ensures Do(Joined(), DoRegister(2, 5, AWAY)) == Known()
  {
    assert Flush([], AWAY, {}) == [];
    var nd := RegisterName(Joined().nodes[2], 5, AWAY);
    assert Handled(Joined().nodes[2], 5) + Flush([], AWAY, {}) == [];
    assert nd == Known().nodes[2];
  }

  lemma KnownReached()
    ensures After({1, 2}, [MasterGets(1), MasterGets(2), DoRegister(2, 5, AWAY)]) == Known()
  {
    hide After, Do;
    var run := [MasterGets(1), MasterGets(2), DoRegister(2, 5, AWAY)];
    JoinedNext();
    KnownNext();
    AfterNone({1, 2}, run);
    AfterNext({1, 2}, run, 0, Start({1, 2}), Do(Start({1, 2}), MasterGets(1)));
    AfterNext({1, 2}, run, 1, Do(Start({1, 2}), MasterGets(1)), Joined());
    AfterNext({1, 2}, run, 2, Joined(), Known());
    assert run[..3] == run;
  }

  lemma HeardNext()
    ensures Do(Do(Known(), MasterGets(2)), HarborGets(1)) == Heard()
  {
    var s4 := Do(Known(), MasterGets(2));
    var told := [Told(5, AWAY)];
    assert s4.nodes[1] == Known().nodes[1].(down := told) && s4.nodes[2] == Heard().nodes[2];
    assert told[1..] == [];
  }

  /** Such a run: harbor 1 sends to a name of harbor 2 without a connection to it. The message is dropped, and harbor 2 cut off. */
  lemma UnreachedIsCutOff()
    ensures var run := [MasterGets(1), MasterGets(2), DoRegister(2, 5, AWAY), MasterGets(2), HarborGets(1), DoSend(1, 5, 7), MasterGets(1)];
            var s := After({1, 2}, run);
            1 in s.nodes && 2 in s.nodes && s.cut == {2} && Handled(s.nodes[1], 5) == [Delivery(7, AWAY, Dropped)]
  {
    hide After, Do;
    var run := [MasterGets(1), MasterGets(2), DoRegister(2, 5, AWAY), MasterGets(2), HarborGets(1), DoSend(1, 5, 7), MasterGets(1)];
    KnownReached();
    assert run[..3] == [MasterGets(1), MasterGets(2), DoRegister(2, 5, AWAY)];
    HeardNext();
    AfterNext({1, 2}, run, 3, Known(), Do(Known(), MasterGets(2)));
    AfterNext({1, 2}, run, 4, Do(Known(), MasterGets(2)), Heard());
    var s6 := Do(Heard(), DoSend(1, 5, 7));
    AfterNext({1, 2}, run, 5, Heard(), s6);
    AfterNext({1, 2}, run, 6, s6, Do(s6, MasterGets(1)));
    assert run[..7] == run;
    CutNow();
  }

  lemma CutNow()
    ensures var s := Do(Do(Heard(), DoSend(1, 5, 7)), MasterGets(1));
            1 in s.nodes && 2 in s.nodes && s.cut == {2} && Handled(s.nodes[1], 5) == [Delivery(7, AWAY, Dropped)]
  {
    assert Routed(1, {}, AWAY) == Dropped && AWAY / HARBOR_UNIT == 2;
    var s6 := Do(Heard(), DoSend(1, 5, 7));
    assert s6.nodes[1].up == [Locate(2)];
  }

  lemma AfterNone(harbors: set<nat>, run: seq<Action>)
    ensures After(harbors, run[..0]) == Start(harbors)
  {
  }

  lemma AfterNext(harbors: set<nat>, run: seq<Action>, k: nat, s: System, s': System)
    requires k < |run| && After(harbors, run[..k]) == s && s' == Do(s, run[k])
    ensures After(harbors, run[..k + 1]) == s'
  {
    hide Do;
    assert run[..k + 1][..k] == run[..k];
  }

  // ---------- the pending queue ----------

  const DEFAULT_QUEUE_SIZE := 1024

  class PendingQueue {
    var size: nat
    var head: nat
    var tail: nat
    var data: array<nat>

    ghost predicate Valid()
      reads this
    {
      size > 1 && data.Length == size && head < size && tail < size
    }

    ghost function Contents(): seq<nat>
      requires Valid()
      reads this, data
    {
      Ring(data[..], head, tail)
    }

    /** _new_queue. */
    constructor ()
      ensures Valid() && Contents() == [] && fresh(data)
    {
      size, head, tail := DEFAULT_QUEUE_SIZE, 0, 0;
      data := new nat[DEFAULT_QUEUE_SIZE](_ => 0);
    }

    /** The growth in _push_queue: the contents move to the front of an array twice as long. */
    method Grow()
      requires Valid() && Wrap(tail + 1, size) == head
      modifies this
      ensures Valid() && fresh(data) && Contents() == old(Contents()) && Wrap(tail + 1, size) != head
    {
      hide Ring;
      ghost var all := Rotated(data[..], head);
      var bigger := new nat[size * 2](_ => 0);
      var i := 0;
      while i < size - 1
        invariant i <= size - 1 && unchanged(this) && unchanged(data)
        invariant bigger[..i] == all[..i]
      {
        Around(head, i, size);
        bigger[i] := data[(i + head) % size];
        i := i + 1;
      }
      FrontOfRing(data[..], head, tail, bigger[..]);
      data, head, tail, size := bigger, 0, size - 1, size * 2;
    }

    /** _push_queue. */
    method Push(message: nat)
      requires Valid()
      modifies this, data
      ensures Valid() && Contents() == old(Contents()) + [message] && (data == old(data) || fresh(data))
    {
      hide Ring;
      if Wrap(tail + 1, size) == head {
        Grow();
      }
      RingPush(data[..], head, tail, message);
      ghost var stored := data[..][tail := message];
      data[tail] := message;
      assert data[..] == stored;
      tail := Wrap(tail + 1, size);
    }

    /** _pop_queue. */
    method Pop() returns (got: bool, message: nat)
      requires Valid()
      modifies this`head
      ensures Valid() && (got <==> old(Contents()) != []) && (got ==> old(Contents()) == [message] + Contents()) && (!got ==> Contents() == [])
    {
      message := data[head];
      got := head != tail;
      if got {
        RingPop(data[..], head, tail);
        head := Wrap(head + 1, size);
      }
    }

    /** _dispatch_queue and _release_queue: what the queue holds is sent in its order, or dropped. */
    method Dispatch(handle: nat, peers: set<nat>) returns (d: seq<Delivery>)
      requires Valid()
      modifies this`head
      ensures Valid() && Contents() == [] && d == Flush(old(Contents()), handle, peers)
    {
      hide Ring;
      d := [];
      var connected := handle / HARBOR_UNIT in peers;
      var route := if connected then Remote else Dropped;
      ghost var done: seq<nat> := [];
      while true
        invariant Valid() && done + Contents() == old(Contents()) && d == Flush(done, handle, peers)
        decreases |Contents()|
      {
        ghost var before := Contents();
        var got, message := Pop();
        if !got {
          break;
        }
        done := done + [message];
        assert done + Contents() == old(Contents());
        d := d + [Delivery(message, handle, route)];
      }
      assert done == old(Contents());
    }
  }

  /** The whole life of a pending queue: the messages come out in the order in which they were sent, however often the queue has grown. */
  method Relay(messages: seq<nat>, handle: nat, peers: set<nat>) returns (d: seq<Delivery>)
    ensures d == Flush(messages, handle, peers)
  {
    var queue := new PendingQueue();
    var i := 0;
    while i < |messages|
      invariant i <= |messages| && fresh(queue) && fresh(queue.data) && queue.Valid() && queue.Contents() == messages[..i]
    {
      queue.Push(messages[i]);
      assert messages[..i] + [messages[i]] == messages[..i + 1];
      i := i + 1;
    }
    assert messages[..i] == messages;
    d := queue.Dispatch(handle, peers);
  }

  lemma FrontOfRing(q: seq<nat>, head: nat, tail: nat, bigger: seq<nat>)
    requires head < |q| && tail < |q| && |q| > 1 && Wrap(tail + 1, |q|) == head
    requires |bigger| == 2 * |q| && bigger[..|q| - 1] == Rotated(q, head)[..|q| - 1]
    ensures Ring(bigger, 0, |q| - 1) == Ring(q, head, tail)
  {
  }

  lemma RingPush(q: seq<nat>, head: nat, tail: nat, x: nat)
    requires head < |q| && tail < |q| && Wrap(tail + 1, |q|) != head
    ensures Ring(q[tail := x], head, Wrap(tail + 1, |q|)) == Ring(q, head, tail) + [x]
  {
  }
}
