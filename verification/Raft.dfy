/** Raft elections and log replication without snapshots: what each handler does to one node. */
module Raft {
  import opened Bytes

  datatype Role = Follower | Candidate | Leader

  datatype LogEntry = LogEntry(index: int, term: nat, command: Bytes)

  const NOBODY: int := -1

  /** A node: its volatile state, and the term and vote last saved to disk. */
  datatype Node = Node(term: nat, voted: int, role: Role, log: seq<LogEntry>, next: seq<int>, matched: seq<int>,
                       savedTerm: nat, savedVote: int)

  datatype Msg =
    | VoteRequest(term: nat, candidate: nat, to: nat, lastIndex: int, lastTerm: int)
    | VoteReply(term: nat, from: nat, to: nat, granted: bool)
    | AppendRequest(term: nat, leader: nat, to: nat, prevIndex: int, prevTerm: int, entries: seq<LogEntry>)
    | AppendReply(term: nat, from: nat, to: nat, prevIndex: int, count: nat, success: bool)

  /** `persistStateLocked`. */
  function Saved(n: Node): Node { n.(savedTerm := n.term, savedVote := n.voted) }

  /** Falling in behind a higher term seen in a reply. This is not saved. */
  function Adopted(n: Node, term: nat): Node { n.(term := term, role := Follower, voted := NOBODY) }

  function LastIndex(log: seq<LogEntry>): int { if log == [] then -1 else log[|log| - 1].index }

  function LastTerm(log: seq<LogEntry>): int { if log == [] then 0 else log[|log| - 1].term }

  /** `getTermAt`: zero outside the log. */
  function TermAt(log: seq<LogEntry>, i: int): int { if 0 <= i < |log| then log[i].term else 0 }

  /** `isLogUpToDate`. */
  predicate UpToDate(log: seq<LogEntry>, lastIndex: int, lastTerm: int) {
    log == [] || lastTerm > LastTerm(log) || (lastTerm == LastTerm(log) && lastIndex >= LastIndex(log))
  }

  function Standing(n: Node, me: nat): Node {
    if n.role.Leader? then n else Saved(n.(role := Candidate, term := n.term + 1, voted := me))
  }

  /** A round of voting that ran out of time: the vote for oneself is released within the term. */
  function TimedOut(n: Node, electionTerm: nat): Node {
    if n.role.Candidate? && n.term == electionTerm then n.(role := Follower, voted := NOBODY) else n
  }

  /** `RequestVote`: a higher term is adopted and saved first, then the vote is decided. */
  function CaughtUp(n: Node, term: nat): Node {
    if term > n.term then Saved(Adopted(n, term)) else n
  }

  predicate Grants(n: Node, term: nat, candidate: nat, lastIndex: int, lastTerm: int) {
    term >= n.term &&
    var m := CaughtUp(n, term);
    (m.voted == NOBODY || m.voted == candidate) && UpToDate(m.log, lastIndex, lastTerm)
  }

  function Voted(n: Node, term: nat, candidate: nat, lastIndex: int, lastTerm: int): Node {
    if term < n.term then n
    else if Grants(n, term, candidate, lastIndex, lastTerm) then Saved(CaughtUp(n, term).(voted := candidate))
    else CaughtUp(n, term)
  }

  function Filled(n: nat, x: int): (s: seq<int>)
    ensures |s| == n && forall i :: 0 <= i < n ==> s[i] == x
  {
    if n == 0 then [] else Filled(n - 1, x) + [x]
  }

  function Elected(n: Node, peers: nat): Node {
    n.(role := Leader, next := Filled(peers, LastIndex(n.log) + 1), matched := Filled(peers, 0))
  }

  /** The consistency check. With no snapshot, index 0 as the previous index is always refused. */
  predicate PrevFits(log: seq<LogEntry>, prevIndex: int, prevTerm: int) {
    prevIndex < 0 || (0 < prevIndex < |log| && log[prevIndex].term == prevTerm)
  }

  function Placed(log: seq<LogEntry>, e: LogEntry): seq<LogEntry> {
    if e.index < 0 then log
    else
      var kept := if e.index < |log| && log[e.index].term != e.term then log[..e.index] else log;
      if e.index >= |kept| then kept + [e] else kept
  }

  function PlacedAll(log: seq<LogEntry>, entries: seq<LogEntry>): seq<LogEntry> {
    if entries == [] then log else Placed(PlacedAll(log, entries[..|entries| - 1]), entries[|entries| - 1])
  }

  /** `AppendEntries`: follow the sender of a term not below one's own. */
  function Following(n: Node, term: nat): Node {
    (if term > n.term then Saved(n.(term := term, voted := NOBODY)) else n).(role := Follower)
  }

  predicate Accepts(n: Node, term: nat, prevIndex: int, prevTerm: int) {
    term >= n.term && PrevFits(n.log, prevIndex, prevTerm)
  }

  function Appended(n: Node, term: nat, prevIndex: int, prevTerm: int, entries: seq<LogEntry>): Node {
    if term < n.term then n
    else if !PrevFits(n.log, prevIndex, prevTerm) then Following(n, term)
    else
      var m := Following(n, term).(log := PlacedAll(n.log, entries));
      if entries == [] then m else Saved(m)
  }

  /** `AppendEntry` on a leader. */
  function Proposed(n: Node, command: Bytes): Node {
    n.(log := n.log + [LogEntry(LastIndex(n.log) + 1, n.term, command)])
  }

  /** The entries a leader sends from position `next`: none if that is outside the log. */
  function Suffix(log: seq<LogEntry>, next: int): seq<LogEntry> {
    if 0 <= next < |log| then log[next..] else []
  }

  /** The leader's handling of one reply to `AppendEntries`. */
  function Heard(n: Node, term: nat, from: nat, prevIndex: int, count: nat, success: bool): Node
    requires from < |n.next| && from < |n.matched|
  {
    if term > n.term then Adopted(n, term)
    else if success then
      var m := prevIndex + count;
      if m > n.matched[from] then n.(matched := n.matched[from := m], next := n.next[from := m + 1]) else n
    else if n.next[from] > 0 then n.(next := n.next[from := n.next[from] - 1])
    else n
  }

  function Failed(n: Node, peer: nat): Node
    requires peer < |n.next|
  {
    if n.role.Leader? then n.(next := n.next[peer := n.next[peer] - 1]) else n
  }

  /** After a crash: the saved term and vote, and some prefix of the log. */
  function Restarted(n: Node, kept: nat): Node
    requires kept <= |n.log|
  {
    n.(term := n.savedTerm, voted := n.savedVote, role := Follower, log := n.log[..kept],
       next := Filled(|n.next|, 0), matched := Filled(|n.matched|, 0))
  }

  // ---- runs ----

  /** Nodes, every message ever sent (so that any may be lost, repeated or late), and as history who was
      elected with whose votes, and the log of each term's leader. */
  datatype State = State(nodes: seq<Node>, net: set<Msg>, leaders: map<(nat, nat), set<nat>>,
                         logs: map<nat, seq<LogEntry>>)

  datatype Step =
    | Stand(i: nat, requests: set<Msg>)
    | Vote(i: nat, request: Msg)
    | HearVote(i: nat, reply: Msg)
    | Win(i: nat, voters: set<nat>)
    | Timeout(i: nat, electionTerm: nat)
    | Append(i: nat, request: Msg)
    | HearAppend(i: nat, reply: Msg)
    | RpcError(i: nat, peer: nat)
    | Propose(i: nat, command: Bytes)
    | Replicate(i: nat, peer: nat)
    | Crash(i: nat, kept: nat)

  /** More votes than half the peers, the candidate's own included. */
  predicate Wins(voters: set<nat>, peers: nat) { |voters| + 1 > peers / 2 }

  ghost predicate Next(s: State, step: Step, t: State) {
    step.i < |s.nodes| &&
    var i, n, peers := step.i, s.nodes[step.i], |s.nodes|;
    match step
    case Stand(_, requests) =>
      && !n.role.Leader?
      && (forall m :: m in requests ==>
            m.VoteRequest? && m.term == n.term + 1 && m.candidate == i && m.to < peers && m.to != i &&
            m.lastIndex == LastIndex(n.log) && m.lastTerm == LastTerm(n.log))
      && t == s.(nodes := s.nodes[i := Standing(n, i)], net := s.net + requests)
    case Vote(_, m) =>
      && m in s.net && m.VoteRequest? && m.to == i
      && t == s.(nodes := s.nodes[i := Voted(n, m.term, m.candidate, m.lastIndex, m.lastTerm)],
                 net := s.net + {VoteReply(Voted(n, m.term, m.candidate, m.lastIndex, m.lastTerm).term, i, m.candidate,
                                           Grants(n, m.term, m.candidate, m.lastIndex, m.lastTerm))})
    case HearVote(_, m) =>
      && m in s.net && m.VoteReply? && m.to == i
      && t == s.(nodes := s.nodes[i := if m.term > n.term then Adopted(n, m.term) else n])
    case Win(_, voters) =>
      && n.role.Candidate? && Wins(voters, peers) && i !in voters
      && (forall v :: v in voters ==> v < peers && VoteReply(n.term, v, i, true) in s.net)
      && t == s.(nodes := s.nodes[i := Elected(n, peers)], leaders := s.leaders[(n.term, i) := voters],
                 logs := s.logs[n.term := n.log])
    case Timeout(_, electionTerm) =>
      t == s.(nodes := s.nodes[i := TimedOut(n, electionTerm)])
    case Append(_, m) =>
      && m in s.net && m.AppendRequest? && m.to == i
      && t == s.(nodes := s.nodes[i := Appended(n, m.term, m.prevIndex, m.prevTerm, m.entries)],
                 net := s.net + {AppendReply(Appended(n, m.term, m.prevIndex, m.prevTerm, m.entries).term, i, m.leader,
                                             m.prevIndex, |m.entries|, Accepts(n, m.term, m.prevIndex, m.prevTerm))})
    case HearAppend(_, m) =>
      && m in s.net && m.AppendReply? && m.to == i && m.from < |n.next| && m.from < |n.matched|
      && t == s.(nodes := s.nodes[i := Heard(n, m.term, m.from, m.prevIndex, m.count, m.success)])
    case RpcError(_, peer) =>
      peer < |n.next| && t == s.(nodes := s.nodes[i := Failed(n, peer)])
    case Propose(_, command) =>
      n.role.Leader? && t == s.(nodes := s.nodes[i := Proposed(n, command)],
                                logs := s.logs[n.term := Proposed(n, command).log])
    case Replicate(_, peer) =>
      && n.role.Leader? && peer < peers && peer != i && peer < |n.next|
      && t == s.(net := s.net + {AppendRequest(n.term, i, peer, n.next[peer] - 1, TermAt(n.log, n.next[peer] - 1),
                                               Suffix(n.log, n.next[peer]))})
    case Crash(_, kept) =>
      kept <= |n.log| && t == s.(nodes := s.nodes[i := Restarted(n, kept)])
  }

  function Fresh(peers: nat): Node {
    Node(0, NOBODY, Follower, [], Filled(peers, 0), Filled(peers, 0), 0, NOBODY)
  }

  ghost predicate IsRun(states: seq<State>, steps: seq<Step>) {
    && |states| == |steps| + 1
    && (var s := states[0]; s.net == {} && s.leaders == map[] && s.logs == map[] &&
                            forall i :: 0 <= i < |s.nodes| ==> s.nodes[i] == Fresh(|s.nodes|))
    && forall i :: 0 <= i < |steps| ==> Next(states[i], steps[i], states[i + 1])
  }

  // ---- election safety ----

  /** In term `term` the node's vote, as held and as saved, is `c`'s; or the node is past that term. */
  predicate Bound(n: Node, term: nat, c: int) {
    && n.savedTerm >= term && (n.savedTerm == term ==> n.savedVote == c)
    && n.term >= term && (n.term == term ==> n.voted == c)
  }

  /** A candidate has voted for itself and saved it. */
  predicate NodeOk(n: Node, me: nat) {
    n.term >= n.savedTerm && (n.role.Candidate? ==> n.voted == me && n.savedTerm == n.term && n.savedVote == me)
  }

  predicate Granted(m: Msg) { m.VoteReply? && m.granted }

  /** A vote binds its voter, who is not the candidate and was not elected in that term. */
  ghost predicate VoteOk(s: State, m: Msg)
    requires Granted(m)
  {
    && m.from < |s.nodes| && m.from != m.to && Bound(s.nodes[m.from], m.term, m.to)
    && (m.term, m.from) !in s.leaders
  }

  /** An election binds its winner, ends the candidacy and rests on votes that were sent. */
  ghost predicate LeaderOk(s: State, term: nat, i: nat, voters: set<nat>) {
    && i < |s.nodes| && Bound(s.nodes[i], term, i) && !(s.nodes[i].role.Candidate? && s.nodes[i].term == term)
    && i !in voters && Wins(voters, |s.nodes|)
    && forall v :: v in voters ==> v < |s.nodes| && VoteReply(term, v, i, true) in s.net
  }

  ghost predicate Votes(s: State) {
    && (forall i :: 0 <= i < |s.nodes| ==>
          NodeOk(s.nodes[i], i) && (s.nodes[i].role.Leader? ==> (s.nodes[i].term, i) in s.leaders))
    && (forall m :: m in s.net && m.VoteRequest? ==> m.candidate != m.to)
    && (forall m :: m in s.net && Granted(m) ==> VoteOk(s, m))
    && (forall m, m' :: m in s.net && Granted(m) && m' in s.net && Granted(m') && m.term == m'.term && m.from == m'.from
          ==> m.to == m'.to)
    && (forall k :: k in s.leaders ==> LeaderOk(s, k.0, k.1, s.leaders[k]))
  }

  /** A step that sends no vote and elects nobody, and keeps node `i` bound to what it promised. */
  ghost predicate KeepsPromises(s: State, i: nat, n': Node) {
    && i < |s.nodes| && NodeOk(n', i)
    && (n'.role.Leader? ==> (n'.term, i) in s.leaders)
    && (forall m :: m in s.net && Granted(m) && m.from == i ==> Bound(n', m.term, m.to))
    && (forall k :: k in s.leaders && k.1 == i ==> Bound(n', k.0, i) && !(n'.role.Candidate? && n'.term == k.0))
  }

  lemma {:induction false} QuietStep(s: State, i: nat, n': Node, sent: set<Msg>, logs: map<nat, seq<LogEntry>>)
    requires Votes(s) && KeepsPromises(s, i, n')
    requires forall m :: m in sent ==> !Granted(m) && (m.VoteRequest? ==> m.candidate != m.to)
    ensures Votes(s.(nodes := s.nodes[i := n'], net := s.net + sent, logs := logs))
  {
    var t := s.(nodes := s.nodes[i := n'], net := s.net + sent, logs := logs);
    hide Bound, Wins;
    forall m | m in t.net && Granted(m) ensures VoteOk(t, m) { assert m in s.net && VoteOk(s, m); }
    forall k | k in t.leaders ensures LeaderOk(t, k.0, k.1, t.leaders[k]) {
      assert LeaderOk(s, k.0, k.1, s.leaders[k]);
    }
  }

  /** Anything that moves a node only forward in its term, or leaves term and vote alone; what is saved
      is what was saved, or what is held. */
  predicate Onward(n: Node, n': Node) {
    && n'.term >= n.term && (n'.term == n.term ==> n'.voted == n.voted)
    && ((n'.savedTerm == n'.term && n'.savedVote == n'.voted) ||
        (n'.savedTerm == n.savedTerm && n'.savedVote == n.savedVote))
    && (n'.role.Candidate? ==> n.role.Candidate? && n'.term == n.term)
    && (n'.role.Leader? ==> n.role.Leader? && n'.term == n.term)
  }

  lemma {:induction false} OnwardKeeps(s: State, i: nat, n': Node)
    requires Votes(s) && i < |s.nodes| && Onward(s.nodes[i], n')
    ensures KeepsPromises(s, i, n')
  {
    var n := s.nodes[i];
    assert NodeOk(n, i) && (n.role.Leader? ==> (n.term, i) in s.leaders);
    forall m | m in s.net && Granted(m) && m.from == i ensures Bound(n', m.term, m.to) { assert VoteOk(s, m); }
    forall k | k in s.leaders && k.1 == i ensures Bound(n', k.0, i) && !(n'.role.Candidate? && n'.term == k.0) {
      assert LeaderOk(s, k.0, k.1, s.leaders[k]);
    }
  }

  lemma {:induction false} StandKeeps(s: State, i: nat)
    requires Votes(s) && i < |s.nodes| && !s.nodes[i].role.Leader?
    ensures KeepsPromises(s, i, Standing(s.nodes[i], i))
  {
    var n' := Standing(s.nodes[i], i);
    forall m | m in s.net && Granted(m) && m.from == i ensures Bound(n', m.term, m.to) { assert VoteOk(s, m); }
    forall k | k in s.leaders && k.1 == i ensures Bound(n', k.0, i) && n'.term != k.0 {
      assert LeaderOk(s, k.0, k.1, s.leaders[k]);
    }
  }

  /** Releasing the vote for oneself breaks no promise: a candidate has promised nothing in its term. */
  lemma {:induction false} TimeoutKeeps(s: State, i: nat, electionTerm: nat)
    requires Votes(s) && i < |s.nodes|
    ensures KeepsPromises(s, i, TimedOut(s.nodes[i], electionTerm))
  {
    var n, n' := s.nodes[i], TimedOut(s.nodes[i], electionTerm);
    assert NodeOk(n, i) && (n.role.Leader? ==> (n.term, i) in s.leaders);
    forall m | m in s.net && Granted(m) && m.from == i ensures Bound(n', m.term, m.to) { assert VoteOk(s, m); }
    forall k | k in s.leaders && k.1 == i ensures Bound(n', k.0, i) && !(n'.role.Candidate? && n'.term == k.0) {
      assert LeaderOk(s, k.0, k.1, s.leaders[k]);
    }
  }

  lemma {:induction false} CrashKeeps(s: State, i: nat, kept: nat)
    requires Votes(s) && i < |s.nodes| && kept <= |s.nodes[i].log|
    ensures KeepsPromises(s, i, Restarted(s.nodes[i], kept))
  {
    var n, n' := s.nodes[i], Restarted(s.nodes[i], kept);
    forall m | m in s.net && Granted(m) && m.from == i ensures Bound(n', m.term, m.to) { assert VoteOk(s, m); }
    forall k | k in s.leaders && k.1 == i ensures Bound(n', k.0, i) { assert LeaderOk(s, k.0, k.1, s.leaders[k]); }
  }

  /** Granting a vote: the voter is free, or had already voted for the same candidate, in this term. */
  lemma {:induction false} GrantKeeps(s: State, m: Msg)
    requires Votes(s) && m in s.net && m.VoteRequest? && m.to < |s.nodes|
    requires Grants(s.nodes[m.to], m.term, m.candidate, m.lastIndex, m.lastTerm)
    ensures var n' := Voted(s.nodes[m.to], m.term, m.candidate, m.lastIndex, m.lastTerm);
            && KeepsPromises(s, m.to, n') && n'.term == m.term && Bound(n', m.term, m.candidate)
            && (m.term, m.to) !in s.leaders
            && forall g :: g in s.net && Granted(g) && g.from == m.to && g.term == m.term ==> g.to == m.candidate
  {
    var i, n := m.to, s.nodes[m.to];
    var n' := Voted(n, m.term, m.candidate, m.lastIndex, m.lastTerm);
    assert NodeOk(n, i) && (n.role.Leader? ==> (n.term, i) in s.leaders);
    forall g | g in s.net && Granted(g) && g.from == i
      ensures Bound(n', g.term, g.to) && (g.term == m.term ==> g.to == m.candidate)
    {
      assert VoteOk(s, g);
    }
    forall k | k in s.leaders && k.1 == i ensures k.0 < m.term && Bound(n', k.0, i) {
      assert LeaderOk(s, k.0, k.1, s.leaders[k]);
    }
    assert n.role.Leader? ==> (n.term, i).0 == n.term;
  }

  lemma {:induction false} VoteStep(s: State, i: nat, m: Msg, t: State)
    requires Votes(s) && Next(s, Vote(i, m), t)
    ensures Votes(t)
  {
    var n := s.nodes[i];
    var n' := Voted(n, m.term, m.candidate, m.lastIndex, m.lastTerm);
    var reply := VoteReply(n'.term, i, m.candidate, Grants(n, m.term, m.candidate, m.lastIndex, m.lastTerm));
    if reply.granted {
      GrantKeeps(s, m);
      GrantedStep(s, i, n', reply);
    } else {
      OnwardKeeps(s, i, n');
      QuietStep(s, i, n', {reply}, s.logs);
    }
  }

  lemma {:induction false} GrantedStep(s: State, i: nat, n': Node, reply: Msg)
    requires Votes(s) && KeepsPromises(s, i, n')
    requires Granted(reply) && reply.from == i && reply.to != i && Bound(n', reply.term, reply.to)
    requires (reply.term, i) !in s.leaders
    requires forall g :: g in s.net && Granted(g) && g.from == i && g.term == reply.term ==> g.to == reply.to
    ensures Votes(s.(nodes := s.nodes[i := n'], net := s.net + {reply}))
  {
    var t := s.(nodes := s.nodes[i := n'], net := s.net + {reply});
    hide Bound, Wins;
    forall m | m in t.net && Granted(m) ensures VoteOk(t, m) { if m != reply { assert m in s.net && VoteOk(s, m); } }
    forall k | k in t.leaders ensures LeaderOk(t, k.0, k.1, t.leaders[k]) {
      assert LeaderOk(s, k.0, k.1, s.leaders[k]);
    }
  }

  lemma {:induction false} WinStep(s: State, i: nat, voters: set<nat>, t: State)
    requires Votes(s) && Next(s, Win(i, voters), t)
    ensures Votes(t)
  {
    var n := s.nodes[i];
    assert NodeOk(n, i);
    forall m | m in t.net && Granted(m) ensures VoteOk(t, m) { assert VoteOk(s, m); }
    forall k | k in t.leaders ensures LeaderOk(t, k.0, k.1, t.leaders[k]) {
      if k != (n.term, i) { assert LeaderOk(s, k.0, k.1, s.leaders[k]); }
    }
    forall j | 0 <= j < |t.nodes|
      ensures NodeOk(t.nodes[j], j) && (t.nodes[j].role.Leader? ==> (t.nodes[j].term, j) in t.leaders)
    {
      assert NodeOk(s.nodes[j], j) && (s.nodes[j].role.Leader? ==> (s.nodes[j].term, j) in s.leaders);
    }
  }

  lemma {:induction false} StepKeepsVotes(s: State, step: Step, t: State)
    requires Votes(s) && Next(s, step, t)
    ensures Votes(t)
  {
    hide Votes, KeepsPromises, NodeOk, Bound;
    var i, n := step.i, s.nodes[step.i];
    var n' := t.nodes[i];
    match step
    case Stand(_, requests) =>
      StandKeeps(s, i);
      QuietStep(s, i, n', requests, s.logs);
    case Vote(_, m) => VoteStep(s, i, m, t);
    case Win(_, voters) => WinStep(s, i, voters, t);
    case Timeout(_, electionTerm) =>
      TimeoutKeeps(s, i, electionTerm);
      QuietStep(s, i, n', {}, s.logs);
      assert s.net + {} == s.net;
    case Append(_, m) =>
      OnwardKeeps(s, i, n');
      QuietStep(s, i, n', t.net - s.net, s.logs);
      assert s.net + (t.net - s.net) == t.net;
    case Replicate(_, peer) =>
      OnwardKeeps(s, i, n');
      QuietStep(s, i, n', t.net - s.net, s.logs);
      assert s.net + (t.net - s.net) == t.net && s.nodes[i := n'] == s.nodes;
    case Crash(_, kept) =>
      CrashKeeps(s, i, kept);
      QuietStep(s, i, n', {}, s.logs);
      assert s.net + {} == s.net;
    case HearVote(_, m) => OnwardStep(s, i, n', t);
    case HearAppend(_, m) => OnwardStep(s, i, n', t);
    case RpcError(_, peer) => OnwardStep(s, i, n', t);
    case Propose(_, command) => OnwardStep(s, i, n', t);
  }

  lemma {:induction false} OnwardStep(s: State, i: nat, n': Node, t: State)
    requires Votes(s) && i < |s.nodes| && Onward(s.nodes[i], n') && t == s.(nodes := s.nodes[i := n'], logs := t.logs)
    ensures Votes(t)
  {
    hide Votes, KeepsPromises, Onward;
    OnwardKeeps(s, i, n');
    QuietStep(s, i, n', {}, t.logs);
    assert s.net + {} == s.net;
  }

  // ---- one leader per term ----

  lemma {:induction false} Below(n: nat) returns (all: set<nat>)
    ensures |all| == n && forall x :: x in all <==> 0 <= x < n
  {
    if n == 0 {
      all := {};
    } else {
      all := Below(n - 1);
      all := all + {n - 1};
    }
  }

  lemma {:induction false} SubsetIsSmaller(a: set<nat>, b: set<nat>)
    requires a <= b
    ensures |a| <= |b|
  {
    if a != {} {
      var x :| x in a;
      SubsetIsSmaller(a - {x}, b - {x});
    }
  }

  /** Two majorities of the same peers share a member. */
  lemma {:induction false} MajoritiesMeet(a: set<nat>, b: set<nat>, peers: nat) returns (v: nat)
    requires (forall x :: x in a ==> x < peers) && (forall x :: x in b ==> x < peers)
    requires |a| > peers / 2 && |b| > peers / 2
    ensures v in a && v in b
  {
    var all := Below(peers);
    SubsetIsSmaller(a + b, all);
    assert |a + b| + |a * b| == |a| + |b|;
    v :| v in a * b;
  }

  /** No term has two leaders. */
  lemma {:induction false} OneLeaderPerTerm(s: State, term: nat, a: nat, b: nat)
    requires Votes(s) && (term, a) in s.leaders && (term, b) in s.leaders
    ensures a == b
  {
    var p, q := s.leaders[(term, a)], s.leaders[(term, b)];
    assert LeaderOk(s, (term, a).0, (term, a).1, p) && LeaderOk(s, (term, b).0, (term, b).1, q);
    var v := MajoritiesMeet(p + {a}, q + {b}, |s.nodes|);
    var forA, forB := VoteReply(term, v, a, true), VoteReply(term, v, b, true);
    assert v != a ==> forA in s.net && VoteOk(s, forA);
    assert v != b ==> forB in s.net && VoteOk(s, forB);
    assert v == a <==> v == b;
  }

  lemma {:induction false} RunKeepsVotes(states: seq<State>, steps: seq<Step>, n: nat)
    requires IsRun(states, steps) && n < |states|
    ensures Votes(states[n])
  {
    if n > 0 {
      RunKeepsVotes(states, steps, n - 1);
      assert Next(states[n - 1], steps[n - 1], states[n - 1 + 1]);
      StepKeepsVotes(states[n - 1], steps[n - 1], states[n]);
    }
  }

  /** Election safety: in every run, whatever is lost, repeated, late, crashed or timed out, two nodes
      that were ever elected in one term are the same node. */
  lemma {:induction false} ElectionSafety(states: seq<State>, steps: seq<Step>, n: nat, term: nat, a: nat, b: nat)
    requires IsRun(states, steps) && n < |states|
    requires (term, a) in states[n].leaders && (term, b) in states[n].leaders
    ensures a == b
  {
    RunKeepsVotes(states, steps, n);
    OneLeaderPerTerm(states[n], term, a, b);
  }

  /** A node in the leader role was elected in its term, so no two nodes lead in one term. */
  lemma {:induction false} LeadersAreElected(states: seq<State>, steps: seq<Step>, n: nat, a: nat, b: nat)
    requires IsRun(states, steps) && n < |states| && a < |states[n].nodes| && b < |states[n].nodes|
    requires states[n].nodes[a].role.Leader? && states[n].nodes[b].role.Leader?
    requires states[n].nodes[a].term == states[n].nodes[b].term
    ensures a == b
  {
    RunKeepsVotes(states, steps, n);
    OneLeaderPerTerm(states[n], states[n].nodes[a].term, a, b);
  }
}
