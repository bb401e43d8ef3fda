// Device pairing, engine/native/src/node.rs: the host's message loop and the
// two-party handshake between a host with its window open and a joiner.

module PairingMessages {
  import opened DeviceStore
  import opened PairedNode
  import opened Wrappers

  datatype Message =
    | PairingInfo(endpointId: string, displayName: string, deviceType: string, os: string, signature: string)
    | RememberVote(remember: bool)
    | Invite
    | InviteResponse
    | Recognition(signature: string)
    | Forget(signature: string)

  // Texts and signature checks on one connection; the keying material is fixed.
  datatype Auth = Auth(texts: Texts, verify: (EndpointId, string) -> bool)

  // A PairingInfo whose id parses and whose signature that id verifies.
  predicate Verifies(auth: Auth, m: Message) {
    m.PairingInfo? && auth.texts.parse(m.endpointId).Some?
    && auth.verify(auth.texts.parse(m.endpointId).value, m.signature)
  }

  // The host remembers the last verifying PairingInfo and the latest vote.
  function NextInfo(auth: Auth, m: Message, info: Option<Message>): Option<Message> {
    if Verifies(auth, m) then Some(m) else info
  }

  function NextVote(m: Message, vote: Option<bool>): Option<bool> {
    if m.RememberVote? then Some(m.remember) else vote
  }

  // The device record made from a PairingInfo.
  function Record(m: Message, now: nat, relay: Option<string>): Device
    requires m.PairingInfo?
  {
    Device(m.endpointId, m.displayName, m.deviceType, m.os, now, now, relay, Active)
  }
}

module HostLoop {
  import opened DeviceStore
  import opened PairedNode
  import opened Wrappers
  import opened PairingMessages

  // A PairingInfo whose id text parses to an id that its signature verifies for.
  ghost predicate Signed(auth: Auth, m: Message) {
    m.PairingInfo? && exists id :: auth.texts.parse(m.endpointId) == Some(id) && auth.verify(id, m.signature)
  }

  lemma SignedVerifies(auth: Auth, m: Message)
    ensures Signed(auth, m) <==> Verifies(auth, m)
  {
  }

  // The node lists a device under the id text of a PairingInfo with what that
  // says about it, as Active, and allows the connection's id.
  ghost predicate PairedWith(n: Node, remote: EndpointId, m: Message)
    requires m.PairingInfo?
  {
    && remote in n.allowed
    && exists d :: && d in n.devices && Key(d) == Lower(m.endpointId) && d.status.Active?
                   && d.displayName == m.displayName && d.deviceType == m.deviceType && d.os == m.os
  }

  lemma PairingStores(x: Texts, n: Node, remote: EndpointId, m: Message, now: nat, relay: Option<string>)
    requires m.PairingInfo?
    ensures PairedWith(Apply(x, n, HostPaired(remote, Record(m, now, relay))), remote, m)
    ensures x.parse(m.endpointId) == Some(remote) ==>
              PairedWith(Apply(x, n, Joined(Record(m, now, relay))), remote, m)
  {
    var d := Record(m, now, relay);
    var r, i := Remembered(n.devices, d), IndexOf(n.devices, Key(d));
    assert d.(status := Active) == d;
    assert r[i] in r && Key(r[i]) == Key(d) == Lower(m.endpointId);
  }

  function LastInfo(auth: Auth, msgs: seq<Message>): (r: Option<Message>)
    ensures r.Some? ==> r.value.PairingInfo? && Verifies(auth, r.value) && r.value in msgs
  {
    if msgs == [] then None
    else if Verifies(auth, msgs[|msgs| - 1]) then Some(msgs[|msgs| - 1])
    else LastInfo(auth, msgs[..|msgs| - 1])
  }

  function LatestVote(msgs: seq<Message>): Option<bool> {
    if msgs == [] then None
    else if msgs[|msgs| - 1].RememberVote? then Some(msgs[|msgs| - 1].remember)
    else LatestVote(msgs[..|msgs| - 1])
  }

  // What pairing waits for: a verifying PairingInfo, and Remember as the latest
  // vote.
  predicate Ready(auth: Auth, msgs: seq<Message>) {
    LastInfo(auth, msgs).Some? && LatestVote(msgs) == Some(true)
  }

  // The i-th message is the last signed one; the last vote.
  ghost predicate LastAt(auth: Auth, msgs: seq<Message>, i: nat) {
    i < |msgs| && Signed(auth, msgs[i]) && forall j :: i < j < |msgs| ==> !Signed(auth, msgs[j])
  }

  predicate VotedAt(msgs: seq<Message>, i: nat) {
    i < |msgs| && msgs[i].RememberVote? && forall j :: i < j < |msgs| ==> !msgs[j].RememberVote?
  }

  // The info is the last signed PairingInfo and the vote the last vote.
  lemma {:induction false} LatestExact(auth: Auth, msgs: seq<Message>)
    ensures forall i: nat :: LastAt(auth, msgs, i) ==> LastInfo(auth, msgs) == Some(msgs[i])
    ensures LastInfo(auth, msgs).Some? ==> exists i: nat :: LastAt(auth, msgs, i)
    ensures forall i: nat :: VotedAt(msgs, i) ==> LatestVote(msgs) == Some(msgs[i].remember)
    ensures LatestVote(msgs).Some? ==> exists i: nat :: VotedAt(msgs, i)
  {
    hide Signed, Verifies;
    if msgs != [] {
      var n := |msgs| - 1;
      LatestExact(auth, msgs[..n]);
      SignedVerifies(auth, msgs[n]);
      forall i: nat
        ensures LastAt(auth, msgs, i) <==> if Signed(auth, msgs[n]) then i == n else LastAt(auth, msgs[..n], i)
        ensures VotedAt(msgs, i) <==> if msgs[n].RememberVote? then i == n else VotedAt(msgs[..n], i)
      {
        LatestSnoc(auth, msgs, i);
      }
      hide LastAt, VotedAt;
      assert Signed(auth, msgs[n]) ==> LastAt(auth, msgs, n);
      assert msgs[n].RememberVote? ==> VotedAt(msgs, n);
    }
  }

  lemma LatestSnoc(auth: Auth, msgs: seq<Message>, i: nat)
    requires msgs != []
    ensures var n := |msgs| - 1;
            && (LastAt(auth, msgs, i) <==> if Signed(auth, msgs[n]) then i == n else LastAt(auth, msgs[..n], i))
            && (VotedAt(msgs, i) <==> if msgs[n].RememberVote? then i == n else VotedAt(msgs[..n], i))
  {
    hide Signed;
    var n := |msgs| - 1;
    assert forall j :: 0 <= j < n ==> msgs[..n][j] == msgs[j];
  }

  // So pairing waits for a signed PairingInfo, and Remember as the last vote.
  lemma ReadyExact(auth: Auth, msgs: seq<Message>)
    ensures Ready(auth, msgs) <==>
            && (exists m :: m in msgs && Signed(auth, m))
            && (exists i: nat :: VotedAt(msgs, i) && msgs[i].remember)
  {
    hide Signed;
    LatestExact(auth, msgs);
    if m :| m in msgs && Signed(auth, m) {
      LastExists(auth, msgs, m);
    }
    hide LastInfo, LatestVote;
    if LastInfo(auth, msgs).Some? {
      var i: nat :| LastAt(auth, msgs, i);
      assert msgs[i] in msgs;
    }
  }

  lemma {:induction false} LastExists(auth: Auth, msgs: seq<Message>, m: Message)
    requires m in msgs && Signed(auth, m)
    ensures LastInfo(auth, msgs).Some?
  {
    hide Signed, Verifies;
    var n := |msgs| - 1;
    SignedVerifies(auth, msgs[n]);
    if !Signed(auth, msgs[n]) {
      assert m in msgs[..n];
      LastExists(auth, msgs[..n], m);
    }
  }

  // What a message does to the node's records beside pairing.
  function Effect(auth: Auth, remote: EndpointId, m: Message, at: nat): (r: seq<Op>)
    ensures |r| <= 1
  {
    if m.Recognition? && auth.verify(remote, m.signature) then [Touch(auth.texts.show(remote), at)]
    else if m.Forget? && auth.verify(remote, m.signature) then [ForgetReceived(remote)]
    else []
  }

  function SideEffects(auth: Auth, remote: EndpointId, msgs: seq<Message>, clock: nat -> nat): seq<Op> {
    if msgs == [] then []
    else
      var n := |msgs| - 1;
      SideEffects(auth, remote, msgs[..n], clock) + Effect(auth, remote, msgs[n], clock(n))
  }

  lemma RunMore(x: Texts, n: Node, ops: seq<Op>, more: seq<Op>)
    requires |more| <= 1
    ensures Run(x, n, ops + more) == Run(x, Run(x, n, ops), more)
  {
    hide Apply;
    if more == [] {
      assert ops + more == ops;
    } else {
      assert (ops + more)[..|ops|] == ops;
      assert more[..0] == [];
    }
  }

  lemma RunNone(x: Texts, n: Node, ops: seq<Op>)
    requires ops == []
    ensures Run(x, n, ops) == n
  {
  }

  lemma RunOne(x: Texts, n: Node, op: Op)
    ensures Run(x, n, [op]) == Apply(x, n, op)
  {
    assert [op][..0] == [];
    RunNone(x, n, [op][..0]);
  }

  // The match over one message.
  method HandleMessage(node: NodeService, auth: Auth, remote: EndpointId, m: Message, at: nat,
                       info: Option<Message>, vote: Option<bool>)
    returns (info': Option<Message>, vote': Option<bool>)
    modifies node, node.store
    ensures info' == NextInfo(auth, m, info) && vote' == NextVote(m, vote)
    ensures node.View() == Run(auth.texts, old(node.View()), Effect(auth, remote, m, at))
    ensures Signed(auth, m) ==> info' == Some(m)
    ensures !Signed(auth, m) ==> info' == info
    ensures vote' == if m.RememberVote? then Some(m.remember) else vote
    ensures m.Forget? && auth.verify(remote, m.signature) ==>
              node.View() == Apply(auth.texts, old(node.View()), ForgetReceived(remote))
    ensures m.Recognition? && auth.verify(remote, m.signature) ==>
              node.View() == Apply(auth.texts, old(node.View()), Touch(auth.texts.show(remote), at))
    ensures (m.Forget? || m.Recognition? ==> !auth.verify(remote, m.signature)) ==> node.View() == old(node.View())
  {
    SignedVerifies(auth, m);
    hide Apply, Run, Signed;
    info', vote' := info, vote;
    ghost var start := node.View();
    if Effect(auth, remote, m, at) == [] {
      RunNone(auth.texts, start, Effect(auth, remote, m, at));
    } else {
      RunOne(auth.texts, start, Effect(auth, remote, m, at)[0]);
    }
    match m {
      case PairingInfo(_, _, _, _, _) =>
        if Verifies(auth, m) {
          info' := Some(m);
        }
      case RememberVote(remember) =>
        vote' := Some(remember);
      case Invite =>
      case InviteResponse =>
      case Recognition(signature) =>
        if auth.verify(remote, signature) {
          TouchNode(node, auth.texts, auth.texts.show(remote), at);
        }
      case Forget(signature) =>
        if auth.verify(remote, signature) {
          node.HandleForget(auth.texts, remote);
        }
    }
  }

  method TouchNode(node: NodeService, x: Texts, text: string, at: nat)
    modifies node.store
    ensures node.View() == Apply(x, old(node.View()), Touch(text, at))
  {
    node.store.Touch(text, at);
  }

  // The host's loop over the messages of one session; reading fails after the
  // last. `count` is how many were read.
  method HostSession(node: NodeService, auth: Auth, remote: EndpointId, msgs: seq<Message>,
                     clock: nat -> nat, relay: Option<string>)
    returns (completed: bool, count: nat, info: Option<Message>)
    modifies node, node.store
    ensures completed <==> exists k :: 0 <= k <= |msgs| && Ready(auth, msgs[..k])
    ensures count <= |msgs| && info == LastInfo(auth, msgs[..count])
    ensures completed ==> Ready(auth, msgs[..count]) && forall k :: 0 <= k < count ==> !Ready(auth, msgs[..k])
    ensures !completed ==> count == |msgs|
    ensures node.View() == Run(auth.texts, old(node.View()),
              SideEffects(auth, remote, msgs[..count], clock)
              + if completed then [HostPaired(remote, Record(info.value, clock(count), relay))] else [])
    ensures info.Some? ==> info.value in msgs[..count] && Signed(auth, info.value)
    ensures completed ==> info.Some? && PairedWith(node.View(), remote, info.value)
    ensures (exists m :: m in msgs && Signed(auth, m)) || !completed
  {
    hide Verifies, Apply, Run, Effect, Signed, PairedWith;
    info, count := None, 0;
    var vote: Option<bool> := None;
    ghost var start := node.View();
    RunNone(auth.texts, start, SideEffects(auth, remote, msgs[..0], clock));
    while count < |msgs|
      invariant count <= |msgs|
      invariant info == LastInfo(auth, msgs[..count]) && vote == LatestVote(msgs[..count])
      invariant forall k :: 0 <= k <= count ==> !Ready(auth, msgs[..k])
      invariant node.View() == Run(auth.texts, start, SideEffects(auth, remote, msgs[..count], clock))
    {
      ghost var ops := SideEffects(auth, remote, msgs[..count], clock);
      assert msgs[..count + 1][..count] == msgs[..count];
      RunMore(auth.texts, start, ops, Effect(auth, remote, msgs[count], clock(count)));
      info, vote := HandleMessage(node, auth, remote, msgs[count], clock(count), info, vote);
      count := count + 1;
      ops := SideEffects(auth, remote, msgs[..count], clock);
      assert info == LastInfo(auth, msgs[..count]);
      if info.Some? && vote == Some(true) {
        var record := Record(info.value, clock(count), relay);
        RunMore(auth.texts, start, ops, [HostPaired(remote, record)]);
        RunOne(auth.texts, node.View(), HostPaired(remote, record));
        PairingStores(auth.texts, node.View(), remote, info.value, clock(count), relay);
        node.HostPaired(auth.texts, remote, record);
        completed := true;
        SignedVerifies(auth, info.value);
        return;
      }
    }
    completed := false;
    if info.Some? {
      SignedVerifies(auth, info.value);
    }
    assert SideEffects(auth, remote, msgs[..count], clock) + [] == SideEffects(auth, remote, msgs[..count], clock);
  }
}

module Handshake {
  import opened DeviceStore
  import opened PairedNode
  import opened Wrappers
  import opened PairingMessages
  import HostLoop

  // The two ends of one pairing: who they are and what they say about
  // themselves. Each PairingInfo carries its sender's printed id.
  datatype Setup = Setup(
    auth: Auth,
    hostId: EndpointId,
    joinerId: EndpointId,
    hostInfo: Message,
    joinerInfo: Message,
    hostNode: Node,
    joinerNode: Node,
    now: nat,
    hostRelay: Option<string>,
    ticketRelay: Option<string>,
    persistent: bool)

  // The host's window is open and it does not already allow the joiner, whose
  // connection it would otherwise treat as a paired one. Each end names itself;
  // whether its signature verifies is left open.
  ghost predicate ReadyToPair(c: Setup) {
    && Lawful(c.auth.texts)
    && c.joinerId !in c.hostNode.allowed
    && c.hostInfo.PairingInfo? && c.hostInfo.endpointId == c.auth.texts.show(c.hostId)
    && c.joinerInfo.PairingInfo? && c.joinerInfo.endpointId == c.auth.texts.show(c.joinerId)
  }

  datatype JoinerPc = SendInfo | SendVote | AwaitInfo | JoinDone | JoinFailed

  datatype HostPc = AcceptStream | Greet | Listen | Reply | AwaitClose | HostDone

  datatype State = State(
    joiner: JoinerPc,
    host: HostPc,
    toHost: seq<Message>,
    toJoiner: seq<Message>,
    info: Option<Message>,
    vote: Option<bool>,
    paired: bool,
    windowOpen: bool,
    hostNode: Node,
    joinerNode: Node)

  function Init(c: Setup): State {
    State(SendInfo, AcceptStream, [], [], None, None, false, true, c.hostNode, c.joinerNode)
  }

  predicate JoinerClosed(s: State) {
    s.joiner.JoinDone? || s.joiner.JoinFailed?
  }

  datatype Side = Joiner | Host

  // A side is blocked while it waits for a message the other may still send.
  predicate Enabled(s: State, side: Side) {
    match side
    case Joiner => !JoinerClosed(s) && (s.joiner.AwaitInfo? ==> s.toJoiner != [] || s.host.HostDone?)
    case Host =>
      match s.host
      case AcceptStream => s.toHost != [] || JoinerClosed(s)
      case Listen => s.toHost != [] || JoinerClosed(s)
      case HostDone => false
      case _ => true
  }

  function StepJoiner(c: Setup, s: State): State {
    match s.joiner
    case SendInfo => s.(joiner := SendVote, toHost := s.toHost + [c.joinerInfo])
    case SendVote => s.(joiner := AwaitInfo, toHost := s.toHost + [RememberVote(true)])
    case AwaitInfo =>
      if s.toJoiner == [] || !Verifies(c.auth, s.toJoiner[0]) then s.(joiner := JoinFailed)
      else s.(joiner := JoinDone, toJoiner := s.toJoiner[1..],
              joinerNode := Apply(c.auth.texts, s.joinerNode, Joined(Record(s.toJoiner[0], c.now, c.ticketRelay))))
    case _ => s
  }

  // Listening is one turn of the host's message loop.
  function StepListen(c: Setup, s: State): State {
    if s.toHost == [] then s.(host := Reply)
    else
      var m := s.toHost[0];
      var info, vote := NextInfo(c.auth, m, s.info), NextVote(m, s.vote);
      var read := s.(toHost := s.toHost[1..], info := info, vote := vote);
      if info.Some? && info.value.PairingInfo? && vote == Some(true)
      then read.(host := Reply, paired := true,
                 hostNode := Apply(c.auth.texts, s.hostNode,
                                   HostPaired(c.joinerId, Record(info.value, c.now, c.hostRelay))))
      else read
  }

  function StepHost(c: Setup, s: State): State {
    match s.host
    case AcceptStream => s.(host := Greet)
    case Greet => s.(host := Listen, toJoiner := s.toJoiner + [c.hostInfo])
    case Listen => StepListen(c, s)
    case Reply =>
      s.(host := if s.paired then AwaitClose else HostDone,
         windowOpen := s.windowOpen && (!s.paired || c.persistent),
         toJoiner := if s.info.Some? then s.toJoiner + [RememberVote(true)] else s.toJoiner)
    case AwaitClose => s.(host := HostDone)
    case HostDone => s
  }

  function Step(c: Setup, s: State, side: Side): State {
    if !Enabled(s, side) then s else if side.Joiner? then StepJoiner(c, s) else StepHost(c, s)
  }

  function Run(c: Setup, schedule: seq<Side>): State {
    if schedule == [] then Init(c)
    else Step(c, Run(c, schedule[..|schedule| - 1]), schedule[|schedule| - 1])
  }

  // ----------------------------------------------------------------- invariant

  // What the joiner has written so far.
  function Sent(c: Setup, s: State): seq<Message> {
    match s.joiner
    case SendInfo => []
    case SendVote => [c.joinerInfo]
    case _ => [c.joinerInfo, RememberVote(true)]
  }

  function PairedHost(c: Setup): Node
    requires c.joinerInfo.PairingInfo?
  {
    Apply(c.auth.texts, c.hostNode, HostPaired(c.joinerId, Record(c.joinerInfo, c.now, c.hostRelay)))
  }

  function PairedJoiner(c: Setup): Node
    requires c.hostInfo.PairingInfo?
  {
    Apply(c.auth.texts, c.joinerNode, Joined(Record(c.hostInfo, c.now, c.ticketRelay)))
  }

  // The host has read n of the joiner's messages.
  predicate HasRead(c: Setup, s: State, n: nat) {
    && n <= |Sent(c, s)| && s.toHost == Sent(c, s)[n..]
    && s.info == (if n >= 1 && Verifies(c.auth, c.joinerInfo) then Some(c.joinerInfo) else None)
    && s.vote == (if n == 2 then Some(true) else None)
  }

  predicate HostOk(c: Setup, s: State)
    requires c.joinerInfo.PairingInfo?
  {
    match s.host
    case AcceptStream => HasRead(c, s, 0) && s.hostNode == c.hostNode && !s.paired
    case Greet => HasRead(c, s, 0) && s.hostNode == c.hostNode && !s.paired && !s.joiner.SendInfo?
    case Listen =>
      && s.hostNode == c.hostNode && !s.paired && !s.joiner.SendInfo?
      && (HasRead(c, s, 0) || HasRead(c, s, 1) || (HasRead(c, s, 2) && !Verifies(c.auth, c.joinerInfo)))
    case _ =>
      && HasRead(c, s, 2) && s.paired == Verifies(c.auth, c.joinerInfo)
      && s.hostNode == (if s.paired then PairedHost(c) else c.hostNode)
  }

  predicate Greeted(s: State) {
    !s.host.AcceptStream? && !s.host.Greet?
  }

  predicate JoinerOk(c: Setup, s: State)
    requires c.hostInfo.PairingInfo?
  {
    match s.joiner
    case JoinDone => Greeted(s) && Verifies(c.auth, c.hostInfo) && s.joinerNode == PairedJoiner(c)
    case JoinFailed => Greeted(s) && !Verifies(c.auth, c.hostInfo) && s.joinerNode == c.joinerNode
    case _ =>
      && s.joinerNode == c.joinerNode
      && (if Greeted(s) then s.toJoiner != [] && s.toJoiner[0] == c.hostInfo else s.toJoiner == [])
  }

  predicate WindowOk(c: Setup, s: State) {
    s.windowOpen == (c.persistent || !s.paired || s.host.Reply?)
  }

  lemma VoteIsNoInfo(c: Setup)
    ensures !Verifies(c.auth, RememberVote(true))
  {
  }

  lemma StepJoinerOk(c: Setup, s: State)
    requires ReadyToPair(c) && HostOk(c, s) && JoinerOk(c, s) && WindowOk(c, s) && Enabled(s, Joiner)
    ensures var s' := StepJoiner(c, s); HostOk(c, s') && JoinerOk(c, s') && WindowOk(c, s')
  {
    hide Apply, Verifies;
  }

  lemma StepListenOk(c: Setup, s: State)
    requires ReadyToPair(c) && s.host.Listen? && HostOk(c, s) && Enabled(s, Host)
    ensures HostOk(c, StepListen(c, s)) && StepListen(c, s).windowOpen == s.windowOpen
    ensures StepListen(c, s).host.Listen? || StepListen(c, s).host.Reply?
    ensures StepListen(c, s).paired ==> StepListen(c, s).host.Reply?
    ensures StepListen(c, s) == s.(host := StepListen(c, s).host, toHost := StepListen(c, s).toHost,
              info := StepListen(c, s).info, vote := StepListen(c, s).vote,
              paired := StepListen(c, s).paired, hostNode := StepListen(c, s).hostNode)
  {
    hide Apply, Verifies;
    VoteIsNoInfo(c);
    var next := StepListen(c, s);
    if s.toHost == [] {
      assert HasRead(c, next, 2);
    } else if HasRead(c, s, 0) {
      assert s.toHost[0] == c.joinerInfo && HasRead(c, next, 1);
    } else {
      assert HasRead(c, s, 1) && s.toHost[0] == RememberVote(true) && HasRead(c, next, 2);
    }
  }

  lemma StepHostOk(c: Setup, s: State)
    requires ReadyToPair(c) && HostOk(c, s) && JoinerOk(c, s) && WindowOk(c, s) && Enabled(s, Host)
    ensures var s' := StepHost(c, s); HostOk(c, s') && JoinerOk(c, s') && WindowOk(c, s')
  {
    hide Apply, Verifies, StepListen;
    if s.host.Listen? {
      StepListenOk(c, s);
    }
  }

  lemma StepOk(c: Setup, s: State, side: Side)
    requires ReadyToPair(c) && HostOk(c, s) && JoinerOk(c, s) && WindowOk(c, s)
    ensures HostOk(c, Step(c, s, side)) && JoinerOk(c, Step(c, s, side)) && WindowOk(c, Step(c, s, side))
  {
    hide StepJoiner, StepHost, HostOk, JoinerOk, WindowOk;
    if Enabled(s, side) {
      if side.Joiner? {
        StepJoinerOk(c, s);
      } else {
        StepHostOk(c, s);
      }
    }
  }

  lemma {:induction false} RunOk(c: Setup, schedule: seq<Side>)
    requires ReadyToPair(c)
    ensures HostOk(c, Run(c, schedule)) && JoinerOk(c, Run(c, schedule)) && WindowOk(c, Run(c, schedule))
  {
    hide Step, ReadyToPair;
    if schedule != [] {
      RunOk(c, schedule[..|schedule| - 1]);
      StepOk(c, Run(c, schedule[..|schedule| - 1]), schedule[|schedule| - 1]);
    } else {
      InfosAre(c);
    }
  }

  lemma InfosAre(c: Setup)
    requires ReadyToPair(c)
    ensures c.hostInfo.PairingInfo? && c.joinerInfo.PairingInfo?
  {
  }

  // ------------------------------------------------------------------ theorems

  predicate Over(s: State) {
    s.host.HostDone? && JoinerClosed(s)
  }

  // No reachable state leaves both sides waiting for each other.
  lemma NoDeadlock(c: Setup, schedule: seq<Side>)
    requires ReadyToPair(c) && !Over(Run(c, schedule))
    ensures Enabled(Run(c, schedule), Joiner) || Enabled(Run(c, schedule), Host)
  {
    RunOk(c, schedule);
    hide Run, Step;
  }

  // Steps left at most. A host that has paired still waits for the close.
  function Measure(s: State): nat {
    (match s.joiner
     case SendInfo => 5
     case SendVote => 3
     case AwaitInfo => 1
     case _ => 0)
    + (match s.host
       case AcceptStream => 4
       case Greet => 3
       case Listen => 2
       case Reply => 1
       case AwaitClose => 1
       case HostDone => 0)
    + (if s.paired && !s.host.AwaitClose? && !s.host.HostDone? then 1 else 0)
    + |s.toHost|
  }

  lemma StepsShrink(c: Setup, s: State, side: Side)
    requires Enabled(s, side)
    ensures Measure(Step(c, s, side)) < Measure(s)
    ensures !(s.host.Listen? && s.paired) ==> Measure(Step(c, s, side)) == Measure(s) - 1
  {
    hide Apply, Verifies;
  }

  // A run that goes on until nothing is enabled.
  predicate Complete(c: Setup, schedule: seq<Side>) {
    !Enabled(Run(c, schedule), Joiner) && !Enabled(Run(c, schedule), Host)
  }

  // A schedule that only moves sides that can move.
  predicate EachEnabled(c: Setup, schedule: seq<Side>) {
    forall k :: 0 <= k < |schedule| ==> Enabled(Run(c, schedule[..k]), schedule[k])
  }

  lemma EachEnabledSnoc(c: Setup, schedule: seq<Side>, side: Side)
    ensures EachEnabled(c, schedule + [side]) <==> EachEnabled(c, schedule) && Enabled(Run(c, schedule), side)
    ensures Run(c, schedule + [side]) == Step(c, Run(c, schedule), side)
  {
    hide Run, Enabled, Step;
    var longer := schedule + [side];
    assert forall k :: 0 <= k <= |schedule| ==> longer[..k] == schedule[..k];
    assert schedule[..|schedule|] == schedule && longer[|schedule|] == side;
    if EachEnabled(c, longer) {
      assert forall k :: 0 <= k < |schedule| ==> Enabled(Run(c, longer[..k]), longer[k]);
    }
    RunSnoc(c, schedule, side);
  }

  lemma RunSnoc(c: Setup, schedule: seq<Side>, side: Side)
    ensures Run(c, schedule + [side]) == Step(c, Run(c, schedule), side)
  {
    hide Step;
    assert (schedule + [side])[..|schedule|] == schedule;
  }

  lemma NothingLeft(c: Setup, schedule: seq<Side>)
    requires ReadyToPair(c)
    ensures Complete(c, schedule) <==> Measure(Run(c, schedule)) == 0
  {
    RunOk(c, schedule);
    if !Over(Run(c, schedule)) {
      NoDeadlock(c, schedule);
    }
    hide Run, Step, Verifies, Apply, Lawful;
  }

  lemma {:induction false} RunsAreShort(c: Setup, schedule: seq<Side>)
    requires EachEnabled(c, schedule)
    ensures |schedule| + Measure(Run(c, schedule)) <= 9
  {
    if schedule != [] {
      hide Run, Step, Enabled, EachEnabled, Measure;
      var k := |schedule| - 1;
      assert schedule == schedule[..k] + [schedule[k]];
      EachEnabledSnoc(c, schedule[..k], schedule[k]);
      RunsAreShort(c, schedule[..k]);
      StepsShrink(c, Run(c, schedule[..k]), schedule[k]);
    }
  }

  // However the two ends interleave and whether or not they verify, a pairing
  // takes exactly nine steps: a run is complete exactly when it has taken them.
  lemma {:induction false} RunsTakeNineSteps(c: Setup, schedule: seq<Side>)
    requires ReadyToPair(c) && EachEnabled(c, schedule)
    ensures |schedule| + Measure(Run(c, schedule)) == 9
    ensures Complete(c, schedule) <==> |schedule| == 9
  {
    NothingLeft(c, schedule);
    if schedule != [] {
      hide Run, Step, Enabled, EachEnabled, Measure, ReadyToPair, Complete;
      var k := |schedule| - 1;
      assert schedule == schedule[..k] + [schedule[k]];
      EachEnabledSnoc(c, schedule[..k], schedule[k]);
      RunsTakeNineSteps(c, schedule[..k]);
      RunOk(c, schedule[..k]);
      StepsShrink(c, Run(c, schedule[..k]), schedule[k]);
    }
  }

  // Every schedule can be continued, by steps that can be taken, to a complete
  // run.
  lemma {:induction false} CanComplete(c: Setup, schedule: seq<Side>) returns (longer: seq<Side>)
    ensures schedule <= longer && Complete(c, longer)
    ensures EachEnabled(c, schedule) ==> EachEnabled(c, longer)
    decreases Measure(Run(c, schedule))
  {
    hide Run, Step, Enabled, EachEnabled, Measure;
    if Complete(c, schedule) {
      return schedule;
    }
    var side := if Enabled(Run(c, schedule), Joiner) then Joiner else Host;
    EachEnabledSnoc(c, schedule, side);
    StepsShrink(c, Run(c, schedule), side);
    longer := CanComplete(c, schedule + [side]);
  }

  // ----------------------------------------------- the host's loop inside the run

  // What the loop of HostSession knows after these messages: none of the
  // shorter prefixes was ready, and it has paired exactly if they are.
  ghost predicate Heard(auth: Auth, info: Option<Message>, vote: Option<bool>, paired: bool, read: seq<Message>) {
    && info == HostLoop.LastInfo(auth, read) && vote == HostLoop.LatestVote(read)
    && paired == HostLoop.Ready(auth, read)
    && forall k :: 0 <= k < |read| ==> !HostLoop.Ready(auth, read[..k])
  }

  lemma HearOne(auth: Auth, info: Option<Message>, vote: Option<bool>, read: seq<Message>, m: Message)
    requires Heard(auth, info, vote, false, read)
    ensures var info', vote' := NextInfo(auth, m, info), NextVote(m, vote);
            && Heard(auth, info', vote', info'.Some? && vote' == Some(true), read + [m])
            && (info'.Some? ==> info'.value.PairingInfo?)
  {
    hide Verifies;
    var longer := read + [m];
    assert longer[..|read|] == read;
    assert forall k :: 0 <= k < |read| ==> longer[..k] == read[..k];
  }

  // The host has read these messages in its loop: its records are what
  // HostSession makes of them, and it stops without pairing only once the joiner
  // has closed and everything sent is read.
  ghost predicate InLoop(c: Setup, s: State, read: seq<Message>) {
    && read + s.toHost == Sent(c, s)
    && Heard(c.auth, s.info, s.vote, s.paired, read)
    && (s.paired ==> s.info.Some? && s.info.value.PairingInfo?)
    && s.hostNode == (if s.paired then Apply(c.auth.texts, c.hostNode,
                                             HostPaired(c.joinerId, Record(s.info.value, c.now, c.hostRelay)))
                      else c.hostNode)
    && (Greeted(s) || (read == [] && !s.paired))
    && (s.host.Listen? ==> !s.paired)
    && (Greeted(s) && !s.host.Listen? && !s.paired ==> s.toHost == [] && JoinerClosed(s))
  }

  lemma ListenInLoop(c: Setup, s: State, read: seq<Message>)
    requires InLoop(c, s, read) && s.host.Listen? && Enabled(s, Host)
    ensures InLoop(c, StepListen(c, s), if s.toHost == [] then read else read + [s.toHost[0]])
  {
    hide Apply, NextInfo, NextVote, Heard, Verifies;
    if s.toHost != [] {
      HearOne(c.auth, s.info, s.vote, read, s.toHost[0]);
      assert read + s.toHost == (read + [s.toHost[0]]) + s.toHost[1..];
    }
  }

  lemma JoinerInLoop(c: Setup, s: State, read: seq<Message>)
    requires InLoop(c, s, read) && Enabled(s, Joiner)
    ensures InLoop(c, StepJoiner(c, s), read)
  {
    hide Apply, Verifies, Heard;
    if s.joiner.SendInfo? {
      assert read + StepJoiner(c, s).toHost == (read + s.toHost) + [c.joinerInfo];
    } else if s.joiner.SendVote? {
      assert read + StepJoiner(c, s).toHost == (read + s.toHost) + [RememberVote(true)];
    }
  }

  lemma StepInLoop(c: Setup, s: State, side: Side, read: seq<Message>) returns (longer: seq<Message>)
    requires InLoop(c, s, read)
    ensures InLoop(c, Step(c, s, side), longer)
  {
    hide Apply, StepListen, Heard;
    longer := read;
    if Enabled(s, side) && side.Joiner? {
      JoinerInLoop(c, s, read);
    } else if Enabled(s, side) && s.host.Listen? {
      ListenInLoop(c, s, read);
      longer := if s.toHost == [] then read else read + [s.toHost[0]];
    }
  }

  lemma {:induction false} RunInLoop(c: Setup, schedule: seq<Side>) returns (read: seq<Message>)
    ensures InLoop(c, Run(c, schedule), read)
  {
    hide Step, InLoop;
    if schedule == [] {
      read := [];
      StartsInLoop(c);
    } else {
      var n := |schedule| - 1;
      read := RunInLoop(c, schedule[..n]);
      read := StepInLoop(c, Run(c, schedule[..n]), schedule[n], read);
    }
  }

  lemma StartsInLoop(c: Setup)
    ensures InLoop(c, Init(c), [])
  {
  }

  lemma {:induction false} NoSideEffects(auth: Auth, remote: EndpointId, msgs: seq<Message>, clock: nat -> nat)
    requires forall m :: m in msgs ==> m.PairingInfo? || m.RememberVote?
    ensures HostLoop.SideEffects(auth, remote, msgs, clock) == []
  {
    if msgs != [] {
      NoSideEffects(auth, remote, msgs[..|msgs| - 1], clock);
      assert msgs[|msgs| - 1] in msgs;
    }
  }

  // In every run the host's side of the handshake is its message loop over the
  // messages it has read: info, vote and verdict are those HostSession computes
  // from them, and the node is the one it leaves.
  lemma HostRunsLoop(c: Setup, schedule: seq<Side>, clock: nat -> nat) returns (read: seq<Message>)
    requires c.joinerInfo.PairingInfo?
    ensures InLoop(c, Run(c, schedule), read)
    ensures var s := Run(c, schedule);
            s.hostNode == PairedNode.Run(c.auth.texts, c.hostNode,
              HostLoop.SideEffects(c.auth, c.joinerId, read, clock)
              + if s.paired then [HostPaired(c.joinerId, Record(s.info.value, c.now, c.hostRelay))] else [])
  {
    read := RunInLoop(c, schedule);
    hide Run, Apply, PairedNode.Run, Heard, HostLoop.SideEffects;
    var s := Run(c, schedule);
    forall m | m in read
      ensures m.PairingInfo? || m.RememberVote?
    {
      assert m in read + s.toHost;
    }
    NoSideEffects(c.auth, c.joinerId, read, clock);
    if s.paired {
      var op := HostPaired(c.joinerId, Record(s.info.value, c.now, c.hostRelay));
      HostLoop.RunOne(c.auth.texts, c.hostNode, op);
      assert HostLoop.SideEffects(c.auth, c.joinerId, read, clock) + [op] == [op];
    } else {
      HostLoop.RunNone(c.auth.texts, c.hostNode, HostLoop.SideEffects(c.auth, c.joinerId, read, clock) + []);
    }
  }

  // A device of this id is stored as Active.
  ghost predicate StoredActive(ds: seq<Device>, key: string) {
    exists d :: d in ds && Key(d) == key && d.status.Active?
  }

  lemma RememberStores(ds: seq<Device>, d: Device)
    requires d.status.Active?
    ensures StoredActive(Remembered(ds, d), Key(d))
  {
    var r, i := Remembered(ds, d), IndexOf(ds, Key(d));
    assert r[i] in r && Key(r[i]) == Key(d) && r[i].status.Active?;
  }

  // Every complete run ends with the host having stored and allowed the joiner
  // exactly if the joiner's PairingInfo verifies, and the other way round for
  // the joiner; otherwise a node is as it was. A pairing shuts the window
  // unless it is persistent.
  lemma CompleteRunExact(c: Setup, schedule: seq<Side>)
    requires ReadyToPair(c) && Complete(c, schedule)
    ensures var s := Run(c, schedule);
            && (s.paired <==> Verifies(c.auth, c.joinerInfo))
            && (s.joiner.JoinDone? <==> Verifies(c.auth, c.hostInfo))
            && s.hostNode == (if s.paired then PairedHost(c) else c.hostNode)
            && s.joinerNode == (if s.joiner.JoinDone? then PairedJoiner(c) else c.joinerNode)
            && s.windowOpen == (c.persistent || !s.paired)
            && (s.paired <==> c.auth.verify(c.joinerId, c.joinerInfo.signature))
            && (s.joiner.JoinDone? <==> c.auth.verify(c.hostId, c.hostInfo.signature))
  {
    VerifiesIsSigned(c);
    RunOk(c, schedule);
    if !Over(Run(c, schedule)) {
      NoDeadlock(c, schedule);
    }
    hide Run, Step, Verifies, Apply;
  }

  lemma VerifiesIsSigned(c: Setup)
    requires ReadyToPair(c)
    ensures Verifies(c.auth, c.joinerInfo) <==> c.auth.verify(c.joinerId, c.joinerInfo.signature)
    ensures Verifies(c.auth, c.hostInfo) <==> c.auth.verify(c.hostId, c.hostInfo.signature)
  {
    var x := c.auth.texts;
    assert x.parse(x.show(c.hostId)) == Some(c.hostId) && x.parse(x.show(c.joinerId)) == Some(c.joinerId);
  }

  // In every run, complete or not, an end whose peer does not sign for its id
  // keeps its records as they were, and a host also its window.
  lemma UnsignedChangesNothing(c: Setup, schedule: seq<Side>)
    requires ReadyToPair(c)
    ensures var s := Run(c, schedule);
            && (!c.auth.verify(c.joinerId, c.joinerInfo.signature) ==>
                  s.hostNode == c.hostNode && !s.paired && s.windowOpen)
            && (!c.auth.verify(c.hostId, c.hostInfo.signature) ==>
                  s.joinerNode == c.joinerNode && !s.joiner.JoinDone?)
  {
    RunOk(c, schedule);
    VerifiesIsSigned(c);
    hide Run, Step, Verifies, Apply, Lawful;
  }

  // With both ends verifying, every complete run ends with each side storing
  // the other as Active and allowing it.
  lemma CompleteRunPairs(c: Setup, schedule: seq<Side>)
    requires ReadyToPair(c) && Complete(c, schedule)
    requires c.auth.verify(c.hostId, c.hostInfo.signature) && c.auth.verify(c.joinerId, c.joinerInfo.signature)
    ensures var s := Run(c, schedule);
            && s.joiner.JoinDone? && s.paired && s.windowOpen == c.persistent
            && StoredActive(s.hostNode.devices, c.auth.texts.show(c.joinerId)) && c.joinerId in s.hostNode.allowed
            && StoredActive(s.joinerNode.devices, c.auth.texts.show(c.hostId)) && c.hostId in s.joinerNode.allowed
            && HostLoop.PairedWith(s.hostNode, c.joinerId, c.joinerInfo)
            && HostLoop.PairedWith(s.joinerNode, c.hostId, c.hostInfo)
  {
    CompleteRunExact(c, schedule);
    hide Run, Step, Remembered, Complete;
    var x := c.auth.texts;
    assert x.parse(x.show(c.hostId)) == Some(c.hostId) && Lower(x.show(c.hostId)) == x.show(c.hostId);
    assert x.parse(x.show(c.joinerId)) == Some(c.joinerId) && Lower(x.show(c.joinerId)) == x.show(c.joinerId);
    RememberStores(c.hostNode.devices, Record(c.joinerInfo, c.now, c.hostRelay));
    RememberStores(c.joinerNode.devices, Record(c.hostInfo, c.now, c.ticketRelay));
    HostLoop.PairingStores(x, c.hostNode, c.joinerId, c.joinerInfo, c.now, c.hostRelay);
    HostLoop.PairingStores(x, c.joinerNode, c.hostId, c.hostInfo, c.now, c.ticketRelay);
  }

  // Whatever the schedule, both nodes keep their allowlist in step with their
  // list, in every state on the way.
  lemma PairingKeepsAgreement(c: Setup, schedule: seq<Side>)
    requires ReadyToPair(c) && Agrees(c.auth.texts, c.hostNode) && Agrees(c.auth.texts, c.joinerNode)
    ensures Agrees(c.auth.texts, Run(c, schedule).hostNode) && Agrees(c.auth.texts, Run(c, schedule).joinerNode)
  {
    RunOk(c, schedule);
    hide Run, Step, Agrees, Apply;
    StepAgrees(c.auth.texts, c.hostNode, HostPaired(c.joinerId, Record(c.joinerInfo, c.now, c.hostRelay)));
    StepAgrees(c.auth.texts, c.joinerNode, Joined(Record(c.hostInfo, c.now, c.ticketRelay)));
  }
}
