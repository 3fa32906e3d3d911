/** Which append requests are accepted, what the leader makes of the replies, and what it sends next. */
module RaftReplies {
  import opened Raft
  import opened RaftLogs
  import opened RaftVotes

  /** The decision on every request with entries in every run, said of logs: it is accepted if and only if its term is
      not below the follower's and the follower's log agrees with the leader's up to the previous index, which must
      not be 0. Once accepted, the follower holds the leader's log up to the last entry sent. */
  lemma {:induction false} AcceptedIff(states: seq<State>, steps: seq<Step>, n: nat, i: nat, m: Msg)
    requires IsRun(states, steps) && n < |steps| && steps[n] == Append(i, m)
    requires m.AppendRequest? && m.entries != []
    ensures m.term in states[n].logs && i < |states[n].nodes| == |states[n + 1].nodes|
    ensures var l, log, p := states[n].logs[m.term], states[n].nodes[i].log, m.prevIndex;
            && -1 <= p < |l|
            && (Accepts(states[n].nodes[i], m.term, p, m.prevTerm) <==>
                  && m.term >= states[n].nodes[i].term && p != 0
                  && p < |log| && log[..p + 1] == l[..p + 1])
    ensures var l, x := states[n].logs[m.term], m.prevIndex + 1 + |m.entries|;
            Accepts(states[n].nodes[i], m.term, m.prevIndex, m.prevTerm) ==>
              x <= |l| && x <= |states[n + 1].nodes[i].log| && states[n + 1].nodes[i].log[..x] == l[..x]
  {
    assert Next(states[n], steps[n], states[n + 1]);
    RunKeepsLogs(states, steps, n);
    var s := states[n];
    assert Sent(m, s.logs) && Matches(s.nodes[i].log, s.logs) && Matches(s.logs[m.term], s.logs);
    hide IsRun, LogsInv, Matches, PlacedAll;
    PieceAccepted(s.nodes[i].log, s.logs[m.term], s.logs, m);
  }

  lemma {:induction false} PieceAccepted(log: seq<LogEntry>, l: seq<LogEntry>, logs: Logs, m: Msg)
    requires m.AppendRequest? && PieceOf(m.prevIndex, m.prevTerm, m.entries, l) && m.entries != []
    requires Matches(log, logs) && Matches(l, logs)
    ensures var p := m.prevIndex;
            PrevFits(log, p, m.prevTerm) <==> p != 0 && p < |log| && log[..p + 1] == l[..p + 1]
    ensures var x := m.prevIndex + 1 + |m.entries|;
            PrevFits(log, m.prevIndex, m.prevTerm) ==>
              x <= |PlacedAll(log, m.entries)| && PlacedAll(log, m.entries)[..x] == l[..x]
  {
    hide Matches, PlacedAll;
    var p := m.prevIndex;
    assert log[..0] == l[..0];
    if 0 < p < |log| {
      if log[p].term == m.prevTerm { AgreeUpTo(log, l, logs, p); }
      if log[..p + 1] == l[..p + 1] { assert log[p] == log[..p + 1][p] == l[..p + 1][p] == l[p]; }
    }
    if PrevFits(log, p, m.prevTerm) {
      PlaceMany(log, l, logs, p + 1, m.entries);
      var x := p + 1 + |m.entries|;
      assert l[..x][..x] == l[..x];
    }
  }

  // ---- terms ----

  /** The message a step hears, if any. */
  ghost function HeardBy(step: Step): set<Msg> {
    match step
    case Vote(_, m) => {m}
    case HearVote(_, m) => {m}
    case Append(_, m) => {m}
    case HearAppend(_, m) => {m}
    case _ => {}
  }

  /** Whatever a node hears: a higher term is adopted, the node follows and its vote is free unless this very message
      asked for it and got it; a lower or equal term does not change the node's term. */
  lemma {:induction false} HigherTermIsFollowed(s: State, step: Step, t: State, m: Msg)
    requires Next(s, step, t) && m in HeardBy(step)
    ensures |t.nodes| == |s.nodes|
    ensures var n, n' := s.nodes[step.i], t.nodes[step.i];
            && (m.term > n.term ==>
                  && n'.term == m.term && n'.role.Follower?
                  && (n'.voted == NOBODY || (m.VoteRequest? && n'.voted == m.candidate)))
            && (m.term <= n.term ==> n'.term == n.term)
  {
    hide PrevFits, PlacedAll, UpToDate;
  }

  /** A node that hears from a leader of its own term follows it, its vote as it was; a lower term is ignored. */
  lemma {:induction false} CandidateStepsBack(s: State, i: nat, m: Msg, t: State)
    requires Next(s, Append(i, m), t) && m.term <= s.nodes[i].term
    ensures var n, n' := s.nodes[i], t.nodes[i];
            && (m.term == n.term ==> n'.role.Follower? && n'.voted == n.voted)
            && (m.term < n.term ==> t.nodes == s.nodes)
  {
    hide PrevFits, PlacedAll;
    if m.term < s.nodes[i].term { assert s.nodes[i := s.nodes[i]] == s.nodes; }
  }

  // ---- what the leader knows of a peer ----

  /** A successful reply answers a request that was accepted. */
  lemma {:induction false} SuccessWasAccepted(states: seq<State>, steps: seq<Step>, n: nat, r: Msg)
    returns (k: nat, m: Msg)
    requires IsRun(states, steps) && n < |states| && r in states[n].net && r.AppendReply? && r.success
    ensures k < n && m.AppendRequest? && steps[k] == Append(r.from, m) && m.leader == r.to
    ensures m.prevIndex == r.prevIndex && |m.entries| == r.count && r.from < |states[k].nodes|
    ensures Accepts(states[k].nodes[r.from], m.term, m.prevIndex, m.prevTerm)
  {
    assert n > 0;
    hide Accepts;
    assert Next(states[n - 1], steps[n - 1], states[n - 1 + 1]);
    if r in states[n - 1].net {
      k, m := SuccessWasAccepted(states, steps, n - 1, r);
    } else {
      k, m := n - 1, steps[n - 1].request;
    }
  }

  lemma {:induction false} MatchedStep(s: State, step: Step, t: State, i: nat, p: nat) returns (r: Msg)
    requires Next(s, step, t) && i < |t.nodes| == |s.nodes| && p < |t.nodes[i].matched| && t.nodes[i].matched[p] != 0
    ensures || (p < |s.nodes[i].matched| && s.nodes[i].matched[p] == t.nodes[i].matched[p])
            || (r in s.net && r.AppendReply? && r.success && r.from == p && r.to == i &&
                r.prevIndex + r.count == t.nodes[i].matched[p])
  {
    hide Wins, Grants, PrevFits, PlacedAll, UpToDate;
    r := if step.HearAppend? then step.reply else VoteReply(0, 0, 0, false);
  }

  /** The match index of a peer was in a successful reply of that peer. */
  lemma {:induction false} MatchedWasReplied(states: seq<State>, steps: seq<Step>, n: nat, i: nat, p: nat)
    returns (r: Msg)
    requires IsRun(states, steps) && n < |states| && i < |states[n].nodes| && p < |states[n].nodes[i].matched|
    requires states[n].nodes[i].matched[p] != 0
    ensures r in states[n].net && r.AppendReply? && r.success && r.from == p && r.to == i
    ensures r.prevIndex + r.count == states[n].nodes[i].matched[p]
  {
    assert n > 0;
    assert Next(states[n - 1], steps[n - 1], states[n - 1 + 1]);
    RunKeepsVotes(states, steps, n - 1);
    StepSaves(states[n - 1], steps[n - 1], states[n]);
    MessagesStay(states[n - 1], steps[n - 1], states[n]);
    r := MatchedStep(states[n - 1], steps[n - 1], states[n], i, p);
    hide Next, Votes;
    if p < |states[n - 1].nodes[i].matched| && states[n - 1].nodes[i].matched[p] == states[n].nodes[i].matched[p] {
      r := MatchedWasReplied(states, steps, n - 1, i, p);
    }
  }

  lemma {:induction false} MessagesStay(s: State, step: Step, t: State)
    requires Next(s, step, t)
    ensures s.net <= t.net
  {
    hide Wins, Grants, PrevFits, PlacedAll, UpToDate;
  }

  /** In every run, a positive match index of a peer was held by that peer: at some moment it accepted a request of this
      leader reaching to that index, and then its log had an entry there; if the request had entries, its log agreed
      up to there with the log of that request's leader. */
  lemma {:induction false} MatchedWasHeld(states: seq<State>, steps: seq<Step>, n: nat, i: nat, p: nat)
    returns (k: nat, m: Msg)
    requires IsRun(states, steps) && n < |states| && i < |states[n].nodes| && p < |states[n].nodes[i].matched|
    requires states[n].nodes[i].matched[p] > 0
    ensures k < n && m.AppendRequest? && steps[k] == Append(p, m) && m.leader == i
    ensures p < |states[k + 1].nodes| && |states[k + 1].nodes[p].log| > states[n].nodes[i].matched[p]
    ensures m.entries != [] ==>
              && m.term in states[k].logs
              && var x := states[n].nodes[i].matched[p] + 1;
                 x <= |states[k].logs[m.term]| && states[k + 1].nodes[p].log[..x] == states[k].logs[m.term][..x]
  {
    var r := MatchedWasReplied(states, steps, n, i, p);
    k, m := SuccessWasAccepted(states, steps, n, r);
    assert Next(states[k], steps[k], states[k + 1]);
    if m.entries != [] { AcceptedIff(states, steps, k, p, m); }
  }

  /** After a success that is news, the next request to that peer starts right behind what it accepted and carries
      the rest of the leader's log. */
  lemma {:induction false} RequestAfterSuccess(s: State, i: nat, r: Msg, t: State, u: State)
    requires Next(s, HearAppend(i, r), t) && r.success && r.term <= s.nodes[i].term
    requires r.prevIndex + r.count > s.nodes[i].matched[r.from] && Next(t, Replicate(i, r.from), u)
    ensures var log, x := s.nodes[i].log, r.prevIndex + r.count;
            exists m :: m in u.net && m.AppendRequest? && m.leader == i && m.to == r.from && m.prevIndex == x &&
                        m.entries == if 0 <= x + 1 < |log| then log[x + 1..] else []
  {
    var n := t.nodes[i];
    var m := AppendRequest(n.term, i, r.from, n.next[r.from] - 1, TermAt(n.log, n.next[r.from] - 1),
                           Suffix(n.log, n.next[r.from]));
    assert m in u.net && m.prevIndex == r.prevIndex + r.count;
  }

  /** After a refusal it starts one entry earlier, as long as there is one. */
  lemma {:induction false} RequestAfterRefusal(s: State, i: nat, r: Msg, t: State, u: State)
    requires Next(s, HearAppend(i, r), t) && !r.success && r.term <= s.nodes[i].term && s.nodes[i].next[r.from] > 0
    requires Next(t, Replicate(i, r.from), u)
    ensures exists m :: m in u.net && m.AppendRequest? && m.leader == i && m.to == r.from &&
                        m.prevIndex == s.nodes[i].next[r.from] - 2
  {
    var n := t.nodes[i];
    var m := AppendRequest(n.term, i, r.from, n.next[r.from] - 1, TermAt(n.log, n.next[r.from] - 1),
                           Suffix(n.log, n.next[r.from]));
    assert m in u.net;
  }

  /** So too after a request that failed on the way. */
  lemma {:induction false} RequestAfterError(s: State, i: nat, peer: nat, t: State, u: State)
    requires Next(s, RpcError(i, peer), t) && Next(t, Replicate(i, peer), u)
    ensures exists m :: m in u.net && m.AppendRequest? && m.leader == i && m.to == peer &&
                        m.prevIndex == s.nodes[i].next[peer] - 2
  {
    var n := t.nodes[i];
    var m := AppendRequest(n.term, i, peer, n.next[peer] - 1, TermAt(n.log, n.next[peer] - 1),
                           Suffix(n.log, n.next[peer]));
    assert m in u.net;
  }

  /** A command proposed in any run reaches every peer whose next position is inside the log or at its end: the next
      request ends with the command, at the leader's term. */
  lemma {:induction false} RequestAfterProposal(states: seq<State>, steps: seq<Step>, n: nat, i: nat,
                                                command: Bytes.Bytes, peer: nat, u: State)
    requires IsRun(states, steps) && n < |steps| && steps[n] == Propose(i, command)
    requires Next(states[n + 1], Replicate(i, peer), u)
    ensures i < |states[n].nodes| && peer < |states[n].nodes[i].next|
    ensures 0 <= states[n].nodes[i].next[peer] <= |states[n].nodes[i].log| ==>
              exists m :: m in u.net && m.AppendRequest? && m.leader == i && m.to == peer && m.entries != [] &&
                          m.entries[|m.entries| - 1] ==
                            LogEntry(|states[n].nodes[i].log|, states[n].nodes[i].term, command)
  {
    assert Next(states[n], steps[n], states[n + 1]);
    RunKeepsLogs(states, steps, n);
    LastIndexIs(states[n].nodes[i].log, states[n].logs);
    hide LogsInv, IsRun;
    var w := states[n + 1].nodes[i];
    var m := AppendRequest(w.term, i, peer, w.next[peer] - 1, TermAt(w.log, w.next[peer] - 1),
                           Suffix(w.log, w.next[peer]));
    assert m in u.net;
  }

  /** The first request after an election starts behind the winner's last entry, whatever was known before. */
  lemma {:induction false} RequestAfterElection(states: seq<State>, steps: seq<Step>, n: nat, i: nat, voters: set<nat>,
                                                peer: nat, u: State)
    requires IsRun(states, steps) && n < |steps| && steps[n] == Win(i, voters)
    requires Next(states[n + 1], Replicate(i, peer), u)
    ensures i < |states[n].nodes|
    ensures exists m :: m in u.net && m.AppendRequest? && m.leader == i && m.to == peer && m.entries == [] &&
                        m.prevIndex == |states[n].nodes[i].log| - 1
  {
    assert Next(states[n], steps[n], states[n + 1]);
    RunKeepsLogs(states, steps, n);
    LastIndexIs(states[n].nodes[i].log, states[n].logs);
    hide LogsInv, IsRun, Wins;
    var w := states[n + 1].nodes[i];
    var m := AppendRequest(w.term, i, peer, w.next[peer] - 1, TermAt(w.log, w.next[peer] - 1),
                           Suffix(w.log, w.next[peer]));
    assert m in u.net;
  }
}
