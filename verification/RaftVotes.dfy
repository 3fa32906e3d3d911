/** Whose vote a candidate gets: what the comparison of last entries means for whole logs, in every run. */
module RaftVotes {
  import opened Raft
  import opened RaftLogs
  import Bytes

  // ---- terms in logs ----

  ghost predicate UpTo(log: seq<LogEntry>, term: nat) {
    forall i :: 0 <= i < |log| ==> log[i].term <= term
  }

  /** No entry is of a later term than its node has saved, or than the leader whose log it is in. */
  ghost predicate TermsInv(s: State) {
    && (forall i :: 0 <= i < |s.nodes| ==> UpTo(s.nodes[i].log, s.nodes[i].savedTerm))
    && (forall term :: term in s.logs ==> UpTo(s.logs[term], term))
  }

  lemma {:induction false} PlacedUpTo(log: seq<LogEntry>, entries: seq<LogEntry>, term: nat)
    requires UpTo(log, term) && UpTo(entries, term)
    ensures UpTo(PlacedAll(log, entries), term)
  {
    if entries != [] { PlacedUpTo(log, entries[..|entries| - 1], term); }
  }

  /** One node changes, keeping its log within what it has saved. */
  lemma {:induction false} NodeTerms(s: State, i: nat, t: State)
    requires TermsInv(s) && i < |s.nodes| == |t.nodes| && t.logs == s.logs && t.nodes == s.nodes[i := t.nodes[i]]
    requires UpTo(t.nodes[i].log, t.nodes[i].savedTerm)
    ensures TermsInv(t)
  {
    hide UpTo;
  }

  lemma {:induction false} UpToMore(log: seq<LogEntry>, term: nat, more: nat)
    requires UpTo(log, term) && term <= more
    ensures UpTo(log, more)
  {
  }

  lemma {:induction false} AppendTerms(s: State, i: nat, m: Msg, t: State)
    requires Votes(s) && LogsInv(s) && TermsInv(s) && Next(s, Append(i, m), t)
    ensures UpTo(t.nodes[i].log, t.nodes[i].savedTerm)
  {
    var n := s.nodes[i];
    assert NodeOk(n, i) && UpTo(n.log, n.savedTerm);
    assert m.entries != [] ==> Sent(m, s.logs) && m.term in s.logs && UpTo(s.logs[m.term], m.term) by {
      hide Votes, UpTo, Appended, Accepts, Matches;
    }
    hide Votes, LogsInv, TermsInv, UpTo, Sent;
    if m.entries != [] { SentUpTo(m, s.logs); }
    AppendedUpTo(n, i, m);
  }

  lemma {:induction false} AppendedUpTo(n: Node, i: nat, m: Msg)
    requires NodeOk(n, i) && UpTo(n.log, n.savedTerm) && m.AppendRequest?
    requires m.entries != [] ==> UpTo(m.entries, m.term)
    ensures var n' := Appended(n, m.term, m.prevIndex, m.prevTerm, m.entries); UpTo(n'.log, n'.savedTerm)
  {
    var n' := Appended(n, m.term, m.prevIndex, m.prevTerm, m.entries);
    hide UpTo, PlacedAll, PrevFits;
    UpToMore(n.log, n.savedTerm, n'.savedTerm);
    if Accepts(n, m.term, m.prevIndex, m.prevTerm) && m.entries != [] { PlacedUpTo(n.log, m.entries, m.term); }
    assert m.entries == [] ==> PlacedAll(n.log, m.entries) == n.log by { PlacedNone(n.log); }
  }

  lemma {:induction false} PlacedNone(log: seq<LogEntry>)
    ensures PlacedAll(log, []) == log
  {
  }

  lemma {:induction false} SentUpTo(m: Msg, logs: Logs)
    requires m.AppendRequest? && Sent(m, logs) && m.entries != [] && UpTo(logs[m.term], m.term)
    ensures UpTo(m.entries, m.term)
  {
    SliceUpTo(logs[m.term], m.prevIndex + 1, m.prevIndex + 1 + |m.entries|, m.term);
    hide UpTo;
  }

  lemma {:induction false} SliceUpTo(log: seq<LogEntry>, i: nat, j: nat, term: nat)
    requires UpTo(log, term) && i <= j <= |log|
    ensures UpTo(log[i..j], term)
  {
  }

  lemma {:induction false} LeaderSaved(s: State, i: nat)
    requires Votes(s) && i < |s.nodes| && s.nodes[i].role.Leader?
    ensures s.nodes[i].savedTerm == s.nodes[i].term
  {
    var n := s.nodes[i];
    assert NodeOk(n, i) && (n.term, i) in s.leaders;
    var k := (n.term, i);
    assert LeaderOk(s, k.0, k.1, s.leaders[k]);
  }

  lemma {:induction false} ProposeTerms(s: State, i: nat, command: Bytes.Bytes, t: State)
    requires Votes(s) && TermsInv(s) && Next(s, Propose(i, command), t)
    ensures TermsInv(t)
  {
    LeaderSaved(s, i);
    hide Votes;
    var n := s.nodes[i];
    assert UpTo(n.log, n.savedTerm);
    assert UpTo(Proposed(n, command).log, n.term);
    hide UpTo;
  }

  lemma {:induction false} WinTerms(s: State, i: nat, voters: set<nat>, t: State)
    requires Votes(s) && TermsInv(s) && Next(s, Win(i, voters), t)
    ensures TermsInv(t)
  {
    var n := s.nodes[i];
    assert NodeOk(n, i);
    UpToMore(n.log, n.savedTerm, n.term);
    hide Votes, UpTo, Wins;
  }

  lemma {:induction false} StepKeepsTerms(s: State, step: Step, t: State)
    requires Votes(s) && LogsInv(s) && TermsInv(s) && Next(s, step, t)
    ensures TermsInv(t)
  {
    var i, n := step.i, s.nodes[step.i];
    assert NodeOk(n, i) && UpTo(n.log, n.savedTerm);
    hide Votes, LogsInv, UpTo, Wins, Grants, PrevFits, PlacedAll, UpToDate;
    match step
    case Propose(_, command) => ProposeTerms(s, i, command, t);
    case Win(_, voters) => WinTerms(s, i, voters, t);
    case Append(_, m) => AppendTerms(s, i, m, t); NodeTerms(s, i, t);
    case Crash(_, kept) => PrefixUpTo(n.log, kept, n.savedTerm); NodeTerms(s, i, t);
    case Replicate(_, _) =>
    case _ => UpToMore(n.log, n.savedTerm, t.nodes[i].savedTerm); NodeTerms(s, i, t);
  }

  lemma {:induction false} PrefixUpTo(log: seq<LogEntry>, kept: nat, term: nat)
    requires UpTo(log, term) && kept <= |log|
    ensures UpTo(log[..kept], term)
  {
  }

  /** A step changes one node, whose saved term does not fall. */
  lemma {:induction false} StepSaves(s: State, step: Step, t: State)
    requires Votes(s) && Next(s, step, t)
    ensures |t.nodes| == |s.nodes| && forall j :: 0 <= j < |s.nodes| && j != step.i ==> t.nodes[j] == s.nodes[j]
    ensures s.nodes[step.i].savedTerm <= t.nodes[step.i].savedTerm
  {
    assert NodeOk(s.nodes[step.i], step.i);
    hide Votes, Wins, Grants, PrevFits, PlacedAll, UpToDate;
  }

  /** Leaders' logs only grow. */
  lemma {:induction false} StepLengthens(s: State, step: Step, t: State)
    requires Votes(s) && Votes(t) && LogsInv(s) && Next(s, step, t)
    ensures Grew(s.logs, t.logs)
  {
    hide Votes, LogsInv, Wins, Grants, PrevFits, PlacedAll, UpToDate;
    if step.Win? {
      WinLengthens(s, step.i, step.voters, t);
    } else if step.Propose? {
      ProposeLengthens(s, step.i, step.command, t);
    }
  }

  lemma {:induction false} WinLengthens(s: State, i: nat, voters: set<nat>, t: State)
    requires Votes(s) && Votes(t) && LogsInv(s) && Next(s, Win(i, voters), t)
    ensures Grew(s.logs, t.logs)
  {
    hide Votes, LogsInv, Wins;
    WinOpensTerm(s, i, voters, t);
  }

  lemma {:induction false} ProposeLengthens(s: State, i: nat, command: Bytes.Bytes, t: State)
    requires Votes(s) && LogsInv(s) && Next(s, Propose(i, command), t)
    ensures Grew(s.logs, t.logs)
  {
    assert s.nodes[i].term in s.logs && s.logs[s.nodes[i].term] == s.nodes[i].log;
    hide Votes, LogsInv;
  }

  lemma {:induction false} StepGrows(s: State, step: Step, t: State)
    requires Votes(s) && Votes(t) && LogsInv(s) && Next(s, step, t)
    ensures |t.nodes| == |s.nodes| && Grew(s.logs, t.logs)
    ensures forall i :: 0 <= i < |s.nodes| ==> s.nodes[i].savedTerm <= t.nodes[i].savedTerm
  {
    StepLengthens(s, step, t);
    StepSaves(s, step, t);
    hide Votes, LogsInv, Grew, Next;
  }

  /** Everything that is known of one moment of a run. */
  ghost predicate AllInv(s: State) { Votes(s) && LogsInv(s) && TermsInv(s) }

  lemma {:induction false} RunKeepsAll(states: seq<State>, steps: seq<Step>, n: nat)
    requires IsRun(states, steps) && n < |states|
    ensures AllInv(states[n])
  {
    hide Votes, LogsInv, TermsInv, Next;
    RunKeepsVotes(states, steps, n);
    RunKeepsLogs(states, steps, n);
    if n == 0 {
      assert TermsInv(states[0]) by { StartTerms(states[0]); }
    } else {
      RunKeepsAll(states, steps, n - 1);
      assert Next(states[n - 1], steps[n - 1], states[n - 1 + 1]);
      StepKeepsTerms(states[n - 1], steps[n - 1], states[n]);
    }
  }

  lemma {:induction false} StartTerms(s: State)
    requires s.logs == map[] && forall i :: 0 <= i < |s.nodes| ==> s.nodes[i] == Fresh(|s.nodes|)
    ensures TermsInv(s)
  {
  }

  lemma {:induction false} RunGrows(states: seq<State>, steps: seq<Step>, m: nat, n: nat)
    requires IsRun(states, steps) && m <= n < |states|
    ensures |states[n].nodes| == |states[m].nodes| && Grew(states[m].logs, states[n].logs)
    ensures forall i :: 0 <= i < |states[m].nodes| ==> states[m].nodes[i].savedTerm <= states[n].nodes[i].savedTerm
  {
    hide Votes, LogsInv, TermsInv, Next;
    if m < n {
      RunGrows(states, steps, m, n - 1);
      RunKeepsAll(states, steps, n - 1);
      RunKeepsAll(states, steps, n);
      assert Next(states[n - 1], steps[n - 1], states[n - 1 + 1]);
      StepGrows(states[n - 1], steps[n - 1], states[n]);
      assert forall term :: term in states[m].logs ==> states[m].logs[term] <= states[n].logs[term];
    }
  }

  // ---- comparing logs ----

  /** `v` is a prefix of `c`, or ends in an earlier term. */
  ghost predicate NotOlder(c: seq<LogEntry>, v: seq<LogEntry>) {
    v <= c || (v != [] && c != [] && v[|v| - 1].term < c[|c| - 1].term)
  }

  /** Terms never fall along a log. */
  lemma {:induction false} TermsAscend(log: seq<LogEntry>, logs: Logs, i: nat)
    requires Matches(log, logs) && i < |log| && forall term :: term in logs ==> UpTo(logs[term], term)
    ensures log[i].term <= log[|log| - 1].term
  {
    UseMatch(log, logs, |log| - 1);
    var l := logs[log[|log| - 1].term];
    assert log[i] == log[..|log|][i] == l[..|log|][i] == l[i];
    assert UpTo(l, log[|log| - 1].term);
  }

  /** Comparing last entries compares logs: a log is not older than another if and only if its last term is higher,
      or equal with no smaller index. */
  lemma {:induction false} LastEntriesDecide(c: seq<LogEntry>, v: seq<LogEntry>, logs: Logs)
    requires Matches(c, logs) && Matches(v, logs) && forall term :: term in logs ==> UpTo(logs[term], term)
    ensures UpToDate(v, LastIndex(c), LastTerm(c)) <==> NotOlder(c, v)
  {
    hide UpTo;
    LastIndexIs(c, logs);
    LastIndexIs(v, logs);
    if c != [] && v != [] {
      var a, b := c[|c| - 1], v[|v| - 1];
      UseMatch(c, logs, |c| - 1);
      UseMatch(v, logs, |v| - 1);
      hide Matches;
      assert c[..|c|] == c && v[..|v|] == v;
      if a.term == b.term && |c| >= |v| {
        var l := logs[a.term];
        assert v == l[..|v|] == l[..|c|][..|v|];
      }
      if v <= c {
        TermsAscend(c, logs, |v| - 1);
        assert c[|v| - 1] == b;
      }
    }
  }

  // ---- votes in runs ----

  /** At moment `k` the candidate of `m` stood for election and sent `m`. */
  ghost predicate Stood(states: seq<State>, steps: seq<Step>, k: nat, m: Msg)
    requires m.VoteRequest?
  {
    && k < |steps| < |states| && steps[k].Stand? && m in steps[k].requests
    && steps[k].i == m.candidate < |states[k].nodes|
    && states[k].nodes[m.candidate].term + 1 == m.term
    && m.lastIndex == LastIndex(states[k].nodes[m.candidate].log)
    && m.lastTerm == LastTerm(states[k].nodes[m.candidate].log)
  }

  lemma {:induction false} RequestWasSent(states: seq<State>, steps: seq<Step>, n: nat, m: Msg) returns (k: nat)
    requires IsRun(states, steps) && n < |states| && m in states[n].net && m.VoteRequest?
    ensures k < n && Stood(states, steps, k, m)
  {
    assert n > 0;
    assert Next(states[n - 1], steps[n - 1], states[n - 1 + 1]);
    if m in states[n - 1].net { k := RequestWasSent(states, steps, n - 1, m); } else { k := n - 1; }
  }

  /** The decision on every vote request of every run, said of logs: the vote is granted if and only if the request's
      term is not below the voter's, the voter is free in that term or has chosen this candidate, and the log the
      candidate had when it stood is not older than the voter's log now. */
  lemma {:induction false} GrantedIff(states: seq<State>, steps: seq<Step>, n: nat, v: nat, m: Msg) returns (k: nat)
    requires IsRun(states, steps) && n < |steps| && steps[n] == Vote(v, m)
    ensures k < n && m.VoteRequest? && Stood(states, steps, k, m) && v < |states[n].nodes|
    ensures var voter := states[n].nodes[v];
            Grants(voter, m.term, m.candidate, m.lastIndex, m.lastTerm) <==>
            && m.term >= voter.term
            && (m.term == voter.term ==> voter.voted == NOBODY || voter.voted == m.candidate)
            && NotOlder(states[k].nodes[m.candidate].log, voter.log)
  {
    assert Next(states[n], steps[n], states[n + 1]);
    k := RequestWasSent(states, steps, n, m);
    RunKeepsAll(states, steps, k);
    RunKeepsAll(states, steps, n);
    RunGrows(states, steps, k, n);
    hide Votes, UpToDate, NotOlder, Matches, UpTo, Sent, IsRun;
    var c, log := states[k].nodes[m.candidate].log, states[n].nodes[v].log;
    MatchesGrew(c, states[k].logs, states[n].logs);
    LastEntriesDecide(c, log, states[n].logs);
  }

  /** A candidate whose round ran out of time may vote again in the same term, for anyone whose log is not older; one
      whose round still runs votes for nobody else. */
  lemma {:induction false} TimedOutVotesAgain(states: seq<State>, steps: seq<Step>, n: nat, v: nat, m: Msg)
    returns (k: nat)
    requires IsRun(states, steps) && n + 1 < |steps| && steps[n] == Timeout(v, m.term) && steps[n + 1] == Vote(v, m)
    requires v < |states[n].nodes| && states[n].nodes[v].role.Candidate? && states[n].nodes[v].term == m.term
    ensures k < n + 1 && m.VoteRequest? && Stood(states, steps, k, m) && v < |states[n + 1].nodes|
    ensures Grants(states[n + 1].nodes[v], m.term, m.candidate, m.lastIndex, m.lastTerm) <==>
              NotOlder(states[k].nodes[m.candidate].log, states[n].nodes[v].log)
  {
    assert Next(states[n], steps[n], states[n + 1]);
    hide Grants, NotOlder;
    k := GrantedIff(states, steps, n + 1, v, m);
  }

  /** Every vote that was ever granted was granted by a voter whose log was not newer than the candidate's. */
  lemma {:induction false} VoterWasNotNewer(states: seq<State>, steps: seq<Step>, n: nat, r: Msg)
    returns (k: nat, j: nat, m: Msg)
    requires IsRun(states, steps) && n < |states| && r in states[n].net && Granted(r)
    ensures k < j < n && m.VoteRequest? && steps[j] == Vote(r.from, m) && m.candidate == r.to && m.term == r.term
    ensures Stood(states, steps, k, m) && r.from < |states[j].nodes|
    ensures NotOlder(states[k].nodes[r.to].log, states[j].nodes[r.from].log)
  {
    assert n > 0;
    hide UpToDate, NotOlder;
    assert Next(states[n - 1], steps[n - 1], states[n - 1 + 1]);
    if r in states[n - 1].net {
      k, j, m := VoterWasNotNewer(states, steps, n - 1, r);
    } else {
      j, m := n - 1, steps[n - 1].request;
      k := GrantedIff(states, steps, j, r.from, m);
    }
  }

  /** A candidate's log is the one it stood with. */
  lemma {:induction false} CandidateStood(states: seq<State>, steps: seq<Step>, n: nat, i: nat) returns (k: nat)
    requires IsRun(states, steps) && n < |states| && i < |states[n].nodes| && states[n].nodes[i].role.Candidate?
    ensures k < n && steps[k].Stand? && steps[k].i == i < |states[k].nodes|
    ensures states[k].nodes[i].term + 1 == states[n].nodes[i].term && states[k].nodes[i].log == states[n].nodes[i].log
  {
    assert n > 0;
    var s, t, step := states[n - 1], states[n], steps[n - 1];
    assert Next(states[n - 1], steps[n - 1], states[n - 1 + 1]);
    RunKeepsVotes(states, steps, n - 1);
    StepSaves(s, step, t);
    if step.Stand? && step.i == i {
      k := n - 1;
    } else {
      if step.i == i { StillCandidate(s, step, t); }
      hide Next, Votes;
      k := CandidateStood(states, steps, n - 1, i);
    }
  }

  lemma {:induction false} StillCandidate(s: State, step: Step, t: State)
    requires Next(s, step, t) && !step.Stand? && |t.nodes| == |s.nodes| && t.nodes[step.i].role.Candidate?
    ensures var n, n' := s.nodes[step.i], t.nodes[step.i];
            n.role.Candidate? && n'.term == n.term && n'.log == n.log
  {
    hide Wins, Grants, PrevFits, PlacedAll, UpToDate;
  }

  /** A node stands at most once in a term. */
  lemma {:induction false} StandsOnce(states: seq<State>, steps: seq<Step>, j: nat, k: nat, i: nat)
    requires IsRun(states, steps) && j < |steps| && k < |steps|
    requires steps[j].Stand? && steps[k].Stand? && steps[j].i == steps[k].i == i
    requires i < |states[j].nodes| && i < |states[k].nodes| && states[j].nodes[i].term == states[k].nodes[i].term
    ensures j == k
  {
    if j < k { StoodBefore(states, steps, j, k, i); } else if k < j { StoodBefore(states, steps, k, j, i); }
  }

  lemma {:induction false} StoodBefore(states: seq<State>, steps: seq<Step>, j: nat, n: nat, i: nat)
    requires IsRun(states, steps) && j < n < |states| && steps[j].Stand? && steps[j].i == i < |states[j].nodes|
    ensures i < |states[n].nodes| && states[n].nodes[i].term > states[j].nodes[i].term
  {
    assert Next(states[j], steps[j], states[j + 1]);
    RunGrows(states, steps, j + 1, n);
    RunKeepsAll(states, steps, n);
    assert NodeOk(states[n].nodes[i], i);
  }

  /** Whoever is elected is not older than its voters: of each vote that counts, the voter's log when it voted is a
      prefix of the log the winner has when it is elected, or ends in an earlier term. */
  lemma {:induction false} ElectedIsNotOlder(states: seq<State>, steps: seq<Step>, n: nat, i: nat,
                                             voters: set<nat>, v: nat)
    returns (j: nat, m: Msg)
    requires IsRun(states, steps) && n < |steps| && steps[n] == Win(i, voters) && v in voters
    ensures j < n && steps[j] == Vote(v, m) && v < |states[j].nodes| && i < |states[n].nodes|
    ensures m.VoteRequest? && m.candidate == i && m.term == states[n].nodes[i].term
    ensures NotOlder(states[n].nodes[i].log, states[j].nodes[v].log)
  {
    hide NotOlder;
    assert Next(states[n], steps[n], states[n + 1]);
    var stood := CandidateStood(states, steps, n, i);
    var k;
    k, j, m := VoterWasNotNewer(states, steps, n, VoteReply(states[n].nodes[i].term, v, i, true));
    StandsOnce(states, steps, stood, k, i);
  }
}
