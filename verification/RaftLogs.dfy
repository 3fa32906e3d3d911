/** Log matching: equal index and term mean equal logs up to there, in every reachable state. */
module RaftLogs {
  import opened Raft
  import Bytes

  type Logs = map<nat, seq<LogEntry>>

  /** Every entry stands at its index, and up to it the log is that of the leader of the entry's term. */
  ghost predicate Matches(log: seq<LogEntry>, logs: Logs) {
    forall i :: 0 <= i < |log| ==> MatchesAt(log, logs, i)
  }

  ghost predicate MatchesAt(log: seq<LogEntry>, logs: Logs, i: nat)
    requires i < |log|
  {
    && log[i].index == i && log[i].term in logs && i < |logs[log[i].term]|
    && log[..i + 1] == logs[log[i].term][..i + 1]
  }

  /** The entries are a piece of the log `l`, and `prevTerm` is the term of the entry in front of it. */
  predicate PieceOf(prevIndex: int, prevTerm: int, entries: seq<LogEntry>, l: seq<LogEntry>) {
    && -1 <= prevIndex && prevIndex + 1 + |entries| <= |l|
    && entries == l[prevIndex + 1..prevIndex + 1 + |entries|]
    && (prevIndex >= 0 ==> prevTerm == l[prevIndex].term)
  }

  /** What a leader sent is a piece of its log. */
  ghost predicate Sent(m: Msg, logs: Logs)
    requires m.AppendRequest?
  {
    m.entries != [] ==> m.term in logs && PieceOf(m.prevIndex, m.prevTerm, m.entries, logs[m.term])
  }

  ghost predicate LogsInv(s: State) {
    && (forall i :: 0 <= i < |s.nodes| ==> Matches(s.nodes[i].log, s.logs))
    && (forall term :: term in s.logs ==> Matches(s.logs[term], s.logs) && exists v :: (term, v) in s.leaders)
    && (forall i :: 0 <= i < |s.nodes| && s.nodes[i].role.Leader? ==>
          s.nodes[i].term in s.logs && s.logs[s.nodes[i].term] == s.nodes[i].log)
    && (forall m :: m in s.net && m.AppendRequest? ==> Sent(m, s.logs))
  }

  ghost predicate Grew(logs: Logs, logs': Logs) {
    forall term :: term in logs ==> term in logs' && logs[term] <= logs'[term]
  }

  lemma {:induction false} MatchesGrew(log: seq<LogEntry>, logs: Logs, logs': Logs)
    requires Matches(log, logs) && Grew(logs, logs')
    ensures Matches(log, logs')
  {
    forall i | 0 <= i < |log| ensures MatchesAt(log, logs', i) { assert MatchesAt(log, logs, i); }
  }

  lemma {:induction false} SentGrew(m: Msg, logs: Logs, logs': Logs)
    requires m.AppendRequest? && Sent(m, logs) && Grew(logs, logs')
    ensures Sent(m, logs')
  {
    hide PieceOf;
    if m.entries != [] { PieceGrew(m.prevIndex, m.prevTerm, m.entries, logs[m.term], logs'[m.term]); }
  }

  lemma {:induction false} PieceGrew(prevIndex: int, prevTerm: int, entries: seq<LogEntry>, l: seq<LogEntry>,
                                     l': seq<LogEntry>)
    requires PieceOf(prevIndex, prevTerm, entries, l) && l <= l'
    ensures PieceOf(prevIndex, prevTerm, entries, l')
  {
    SliceOfPrefix(l, l', prevIndex + 1, prevIndex + 1 + |entries|);
  }

  lemma {:induction false} SliceOfPrefix<T>(a: seq<T>, b: seq<T>, i: nat, j: nat)
    requires a <= b && i <= j <= |a|
    ensures a[i..j] == b[i..j]
  {
    assert a == b[..|a|];
    assert b[..|a|][i..j] == b[i..j];
  }

  lemma {:induction false} MatchesPrefix(log: seq<LogEntry>, logs: Logs, n: nat)
    requires Matches(log, logs) && n <= |log|
    ensures Matches(log[..n], logs)
  {
    forall i | 0 <= i < n ensures MatchesAt(log[..n], logs, i) {
      assert MatchesAt(log, logs, i);
      assert log[..n][..i + 1] == log[..i + 1];
    }
  }

  /** Two logs with the same term at the same index agree up to it. */
  lemma {:induction false} AgreeUpTo(a: seq<LogEntry>, b: seq<LogEntry>, logs: Logs, i: nat)
    requires Matches(a, logs) && Matches(b, logs) && i < |a| && i < |b| && a[i].term == b[i].term
    ensures a[..i + 1] == b[..i + 1]
  {
    assert MatchesAt(a, logs, i) && MatchesAt(b, logs, i);
  }

  // ---- what a follower's log becomes ----

  /** After the first entries have been placed: nothing changed, or the log is a prefix of the leader's. */
  ghost predicate PlacedSoFar(log: seq<LogEntry>, l: seq<LogEntry>, n: nat, r: seq<LogEntry>) {
    n <= |l| && ((r == log && n <= |log| && log[..n] == l[..n]) || r == l[..n])
  }

  lemma {:induction false} PlaceOne(log: seq<LogEntry>, l: seq<LogEntry>, logs: Logs, n: nat, r: seq<LogEntry>)
    requires Matches(log, logs) && Matches(l, logs) && n < |l| && PlacedSoFar(log, l, n, r)
    ensures PlacedSoFar(log, l, n + 1, Placed(r, l[n]))
  {
    hide Matches;
    assert MatchesAt(l, logs, n) by { UseMatch(l, logs, n); }
    assert l[..n + 1] == l[..n] + [l[n]];
    if r == log && n < |log| && log[n].term == l[n].term {
      AgreeUpTo(log, l, logs, n);
    }
  }

  lemma {:induction false} UseMatch(l: seq<LogEntry>, logs: Logs, n: nat)
    requires Matches(l, logs) && n < |l|
    ensures MatchesAt(l, logs, n)
  {
  }

  lemma {:induction false} PlaceMany(log: seq<LogEntry>, l: seq<LogEntry>, logs: Logs, from: nat,
                                     entries: seq<LogEntry>)
    requires Matches(log, logs) && Matches(l, logs) && from + |entries| <= |l| && entries == l[from..from + |entries|]
    requires from <= |log| && log[..from] == l[..from]
    ensures PlacedSoFar(log, l, from + |entries|, PlacedAll(log, entries))
  {
    hide Matches, Placed;
    if entries != [] {
      var init := entries[..|entries| - 1];
      assert init == l[from..from + |init|] && entries[|init|] == l[from + |init|];
      PlaceMany(log, l, logs, from, init);
      PlaceOne(log, l, logs, from + |init|, PlacedAll(log, init));
    }
  }

  /** An accepted request leaves a matching log. */
  lemma {:induction false} AcceptedMatches(log: seq<LogEntry>, logs: Logs, m: Msg)
    requires m.AppendRequest? && Sent(m, logs) && Matches(log, logs)
    requires m.entries != [] ==> Matches(logs[m.term], logs)
    requires PrevFits(log, m.prevIndex, m.prevTerm)
    ensures Matches(PlacedAll(log, m.entries), logs)
  {
    hide Matches;
    if m.entries != [] {
      var l, from := logs[m.term], m.prevIndex + 1;
      if m.prevIndex >= 0 { AgreeUpTo(log, l, logs, m.prevIndex); }
      PlaceMany(log, l, logs, from, m.entries);
      MatchesPrefix(l, logs, from + |m.entries|);
    }
  }

  // ---- steps ----

  lemma {:induction false} AppendKeeps(s: State, i: nat, m: Msg, t: State)
    requires LogsInv(s) && Next(s, Append(i, m), t)
    ensures LogsInv(t)
  {
    hide Matches, Sent, PrevFits, PlacedAll;
    var n := s.nodes[i];
    if m.term >= n.term && PrevFits(n.log, m.prevIndex, m.prevTerm) {
      if m.entries != [] { SentInLogs(m, s.logs); }
      AcceptedMatches(n.log, s.logs, m);
    }
    assert t.nodes[i].role.Leader? ==> t.nodes[i] == n;
  }

  lemma {:induction false} SentInLogs(m: Msg, logs: Logs)
    requires m.AppendRequest? && Sent(m, logs) && m.entries != []
    ensures m.term in logs
  {
  }

  lemma {:induction false} NotYetElected(s: State, i: nat)
    requires Votes(s) && i < |s.nodes| && s.nodes[i].role.Candidate?
    ensures (s.nodes[i].term, i) !in s.leaders
  {
    assert forall k :: k in s.leaders ==> LeaderOk(s, k.0, k.1, s.leaders[k]);
  }

  lemma {:induction false} WinOpensTerm(s: State, i: nat, voters: set<nat>, t: State)
    requires Votes(s) && Votes(t) && LogsInv(s) && Next(s, Win(i, voters), t)
    ensures s.nodes[i].term !in s.logs
  {
    hide Votes, Matches, Sent, Wins;
    var n := s.nodes[i];
    NotYetElected(s, i);
    forall v | (n.term, v) in s.leaders ensures v == i {
      assert (n.term, v) in t.leaders;
      OneLeaderPerTerm(t, n.term, v, i);
    }
  }

  lemma {:induction false} WinKeeps(s: State, i: nat, voters: set<nat>, t: State)
    requires Votes(s) && Votes(t) && LogsInv(s) && Next(s, Win(i, voters), t)
    ensures LogsInv(t)
  {
    hide Votes, Matches, Sent, Wins;
    var n := s.nodes[i];
    WinOpensTerm(s, i, voters, t);
    GrewKeeps(s, t.logs);
    assert (n.term, i) in t.leaders;
    forall term | term in t.logs ensures Matches(t.logs[term], t.logs) && exists v :: (term, v) in t.leaders {
      if term != n.term {
        var v :| (term, v) in s.leaders;
        assert (term, v) in t.leaders;
      }
    }
  }

  lemma {:induction false} GrewKeeps(s: State, logs': Logs)
    requires LogsInv(s) && Grew(s.logs, logs')
    ensures forall i :: 0 <= i < |s.nodes| ==> Matches(s.nodes[i].log, logs')
    ensures forall term :: term in s.logs ==> Matches(s.logs[term], logs')
    ensures forall m :: m in s.net && m.AppendRequest? ==> Sent(m, logs')
  {
    hide Matches, Sent;
    forall i | 0 <= i < |s.nodes| ensures Matches(s.nodes[i].log, logs') { MatchesGrew(s.nodes[i].log, s.logs, logs'); }
    forall term | term in s.logs ensures Matches(s.logs[term], logs') { MatchesGrew(s.logs[term], s.logs, logs'); }
    forall m | m in s.net && m.AppendRequest? ensures Sent(m, logs') { SentGrew(m, s.logs, logs'); }
  }

  lemma {:induction false} ProposedMatches(log: seq<LogEntry>, e: LogEntry, logs: Logs)
    requires Matches(log, logs) && e.index == |log| && e.term in logs && logs[e.term] == log + [e]
    ensures Matches(log + [e], logs)
  {
    var l := log + [e];
    forall i | 0 <= i < |l| ensures MatchesAt(l, logs, i) {
      if i < |log| {
        assert MatchesAt(log, logs, i);
        assert l[..i + 1] == log[..i + 1];
      }
    }
  }

  lemma {:induction false} LastIndexIs(log: seq<LogEntry>, logs: Logs)
    requires Matches(log, logs)
    ensures LastIndex(log) + 1 == |log|
  {
    if log != [] { assert MatchesAt(log, logs, |log| - 1); }
  }

  lemma {:induction false} OnlyLeader(s: State, i: nat, j: nat)
    requires Votes(s) && i < |s.nodes| && j < |s.nodes| && s.nodes[i].role.Leader? && s.nodes[j].role.Leader?
    requires s.nodes[i].term == s.nodes[j].term
    ensures i == j
  {
    OneLeaderPerTerm(s, s.nodes[i].term, i, j);
  }

  lemma {:induction false} ProposeKeeps(s: State, i: nat, command: Bytes.Bytes, t: State)
    requires Votes(s) && LogsInv(s) && Next(s, Propose(i, command), t)
    ensures LogsInv(t)
  {
    hide Votes, Matches, Sent;
    var n := s.nodes[i];
    LastIndexIs(n.log, s.logs);
    GrewKeeps(s, t.logs);
    ProposedMatches(n.log, LogEntry(LastIndex(n.log) + 1, n.term, command), t.logs);
    forall j | 0 <= j < |s.nodes| && s.nodes[j].role.Leader? && s.nodes[j].term == n.term ensures j == i {
      OnlyLeader(s, i, j);
    }
  }

  lemma {:induction false} ReplicateKeeps(s: State, i: nat, peer: nat, t: State)
    requires LogsInv(s) && Next(s, Replicate(i, peer), t)
    ensures LogsInv(t)
  {
    hide Matches;
    var n := s.nodes[i];
    var m := AppendRequest(n.term, i, peer, n.next[peer] - 1, TermAt(n.log, n.next[peer] - 1),
                           Suffix(n.log, n.next[peer]));
    assert Sent(m, s.logs);
    forall g | g in t.net && g.AppendRequest? ensures Sent(g, t.logs) { if g != m { assert g in s.net; } }
  }

  /** A step that leaves all logs alone and makes nobody a leader. */
  lemma {:induction false} SameLogs(s: State, i: nat, t: State)
    requires LogsInv(s) && i < |s.nodes| && |t.nodes| == |s.nodes| && t.logs == s.logs && t.leaders == s.leaders
    requires forall j :: 0 <= j < |s.nodes| && j != i ==> t.nodes[j] == s.nodes[j]
    requires t.nodes[i].log == s.nodes[i].log
    requires t.nodes[i].role.Leader? ==> s.nodes[i].role.Leader? && t.nodes[i].term == s.nodes[i].term
    requires forall m :: m in t.net && m.AppendRequest? ==> m in s.net
    ensures LogsInv(t)
  {
    hide Matches, Sent;
  }

  lemma {:induction false} CrashKeepsLogs(s: State, i: nat, kept: nat, t: State)
    requires LogsInv(s) && Next(s, Crash(i, kept), t)
    ensures LogsInv(t)
  {
    MatchesPrefix(s.nodes[i].log, s.logs, kept);
    hide Matches, Sent;
  }

  lemma {:induction false} StepKeepsLogs(s: State, step: Step, t: State)
    requires Votes(s) && Votes(t) && LogsInv(s) && Next(s, step, t)
    ensures LogsInv(t)
  {
    hide LogsInv, Votes;
    match step
    case Win(i, voters) => WinKeeps(s, i, voters, t);
    case Append(i, m) => AppendKeeps(s, i, m, t);
    case Propose(i, command) => ProposeKeeps(s, i, command, t);
    case Replicate(i, peer) => ReplicateKeeps(s, i, peer, t);
    case Crash(i, kept) => CrashKeepsLogs(s, i, kept, t);
    case Stand(i, requests) => SameLogs(s, i, t);
    case Vote(i, m) => SameLogs(s, i, t);
    case HearVote(i, m) => SameLogs(s, i, t);
    case Timeout(i, electionTerm) => SameLogs(s, i, t);
    case HearAppend(i, m) => SameLogs(s, i, t);
    case RpcError(i, peer) => SameLogs(s, i, t);
  }

  lemma {:induction false} RunKeepsLogs(states: seq<State>, steps: seq<Step>, n: nat)
    requires IsRun(states, steps) && n < |states|
    ensures LogsInv(states[n])
  {
    if n > 0 {
      RunKeepsLogs(states, steps, n - 1);
      RunKeepsVotes(states, steps, n - 1);
      RunKeepsVotes(states, steps, n);
      assert Next(states[n - 1], steps[n - 1], states[n - 1 + 1]);
      StepKeepsLogs(states[n - 1], steps[n - 1], states[n]);
    }
  }

  /** Log matching: in every reachable state, if two nodes hold entries with the same index and term, their logs
      are identical up to that index. */
  lemma {:induction false} LogMatching(states: seq<State>, steps: seq<Step>, n: nat, a: nat, b: nat, i: nat, j: nat)
    requires IsRun(states, steps) && n < |states| && a < |states[n].nodes| && b < |states[n].nodes|
    requires var p, q := states[n].nodes[a].log, states[n].nodes[b].log;
             i < |p| && j < |q| && p[i].index == q[j].index && p[i].term == q[j].term
    ensures i == j && states[n].nodes[a].log[..i + 1] == states[n].nodes[b].log[..i + 1]
  {
    var s := states[n];
    RunKeepsLogs(states, steps, n);
    var p, q := s.nodes[a].log, s.nodes[b].log;
    UseMatch(p, s.logs, i);
    UseMatch(q, s.logs, j);
    AgreeUpTo(p, q, s.logs, i);
  }
}
