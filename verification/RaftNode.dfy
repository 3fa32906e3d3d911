/** One Raft node with its fields changed in place, handler by handler. Each handler is the function of
    module `Raft` that the run theorems speak about. */
module RaftNode {
  import opened Bytes
  import opened Raft

  function Yes(votes: seq<bool>): nat {
    if votes == [] then 0 else Yes(votes[..|votes| - 1]) + if votes[|votes| - 1] then 1 else 0
  }

  lemma {:induction false} YesPrefix(votes: seq<bool>, n: nat)
    requires n <= |votes|
    ensures Yes(votes[..n]) <= Yes(votes)
  {
    if n < |votes| {
      YesPrefix(votes[..|votes| - 1], n);
      assert votes[..|votes| - 1][..n] == votes[..n];
    } else {
      assert votes[..n] == votes;
    }
  }

  /** The counting loop of `awaitVotes`: stop at the first majority, one's own vote included. A group of
      one wins outright. Stopping early never changes the outcome. */
  method CountVotes(votes: seq<bool>, peers: nat) returns (won: bool)
    requires peers == |votes| + 1
    ensures won <==> Yes(votes) + 1 > peers / 2
  {
    if |votes| == 0 { return true; }
    var count, j := 1, 0;
    while j < |votes|
      invariant 0 <= j <= |votes| && count == Yes(votes[..j]) + 1 <= peers / 2
    {
      assert votes[..j + 1][..|votes[..j + 1]| - 1] == votes[..j];
      YesPrefix(votes, j + 1);
      if votes[j] {
        count := count + 1;
        if count > peers / 2 { return true; }
      }
      j := j + 1;
    }
    assert votes[..j] == votes;
    return false;
  }

  class RaftNode {
    const me: nat
    const peers: nat
    var term: nat
    var voted: int
    var role: Role
    var log: seq<LogEntry>
    var next: seq<int>
    var matched: seq<int>
    /** What is on disk. */
    var savedTerm: nat
    var savedVote: int

    ghost function Value(): Node
      reads this
    {
      Node(term, voted, role, log, next, matched, savedTerm, savedVote)
    }

    constructor (me: nat, peers: nat)
      ensures this.me == me && this.peers == peers && Value() == Fresh(peers)
    {
      this.me, this.peers := me, peers;
      term, voted, role, log := 0, NOBODY, Follower, [];
      next, matched := Filled(peers, 0), Filled(peers, 0);
      savedTerm, savedVote := 0, NOBODY;
    }

    method PersistState()
      modifies this`savedTerm, this`savedVote
      ensures Value() == Saved(old(Value()))
    {
      savedTerm, savedVote := term, voted;
    }

    /** `startElection`, up to the request it sends to each peer. */
    method StartElection() returns (request: Option<(nat, int, int)>)
      modifies this
      ensures Value() == Standing(old(Value()), me)
      ensures request == if old(role).Leader? then None else Some((term, LastIndex(log), LastTerm(log)))
    {
      if role.Leader? { return None; }
      role, term, voted := Candidate, term + 1, me;
      PersistState();
      var lastIndex, lastTerm := -1, 0;
      if |log| > 0 { lastIndex, lastTerm := log[|log| - 1].index, log[|log| - 1].term; }
      return Some((term, lastIndex, lastTerm));
    }

    /** The timeout branch of `awaitVotes`. */
    method GiveUp(electionTerm: nat)
      modifies this
      ensures Value() == TimedOut(old(Value()), electionTerm)
    {
      if role.Candidate? && term == electionTerm {
        role, voted := Follower, NOBODY;
      }
    }

    method HearVoteReply(replyTerm: nat, granted: bool) returns (counts: bool)
      modifies this
      ensures Value() == if replyTerm > old(term) then Adopted(old(Value()), replyTerm) else old(Value())
      ensures counts <==> replyTerm == old(term) && granted
    {
      if replyTerm > term {
        term, role, voted := replyTerm, Follower, NOBODY;
        return false;
      }
      return replyTerm == term && granted;
    }

    /** `becomeLeader`: every peer is taken to need what follows the leader's last entry. */
    method BecomeLeader()
      requires |next| == |matched| == peers
      modifies this
      ensures Value() == Elected(old(Value()), peers)
    {
      role := Leader;
      var from := 0;
      if |log| > 0 { from := log[|log| - 1].index + 1; }
      var i := 0;
      while i < peers
        modifies this`next, this`matched
        invariant 0 <= i <= peers && |next| == |matched| == peers
        invariant forall j :: 0 <= j < i ==> next[j] == from && matched[j] == 0
      {
        next, matched := next[i := from], matched[i := 0];
        i := i + 1;
      }
      assert next == Filled(peers, from) && matched == Filled(peers, 0);
    }

    method IsLogUpToDate(lastIndex: int, lastTerm: int) returns (yes: bool)
      ensures yes <==> UpToDate(log, lastIndex, lastTerm)
    {
      if |log| == 0 { return true; }
      var last := log[|log| - 1];
      if lastTerm > last.term { return true; }
      return lastTerm == last.term && lastIndex >= last.index;
    }

    method RequestVote(reqTerm: nat, candidate: nat, lastIndex: int, lastTerm: int)
      returns (replyTerm: nat, granted: bool)
      modifies this
      ensures Value() == Voted(old(Value()), reqTerm, candidate, lastIndex, lastTerm)
      ensures replyTerm == term && granted == Grants(old(Value()), reqTerm, candidate, lastIndex, lastTerm)
    {
      if reqTerm < term { return term, false; }
      if reqTerm > term {
        term, role, voted := reqTerm, Follower, NOBODY;
        PersistState();
      }
      var free := voted == NOBODY || voted == candidate;
      var upToDate := IsLogUpToDate(lastIndex, lastTerm);
      granted := free && upToDate;
      if granted {
        voted := candidate;
        PersistState();
      }
      return term, granted;
    }

    /** `AppendEntries`: refuse, or follow and bring the log in line entry by entry. */
    method AppendEntries(reqTerm: nat, prevIndex: int, prevTerm: int, entries: seq<LogEntry>)
      returns (replyTerm: nat, success: bool)
      modifies this
      ensures Value() == Appended(old(Value()), reqTerm, prevIndex, prevTerm, entries)
      ensures replyTerm == term && success == Accepts(old(Value()), reqTerm, prevIndex, prevTerm)
    {
      if reqTerm < term { return term, false; }
      if reqTerm > term {
        term, voted := reqTerm, NOBODY;
        PersistState();
      }
      role := Follower;
      if prevIndex >= 0 {
        if prevIndex > 0 {
          if prevIndex >= |log| || log[prevIndex].term != prevTerm { return term, false; }
        } else {
          return term, false;
        }
      }
      PlaceEntries(entries);
      if |entries| > 0 { PersistState(); }
      return term, true;
    }

    method PlaceEntries(entries: seq<LogEntry>)
      modifies this`log
      ensures log == PlacedAll(old(log), entries)
    {
      var i := 0;
      while i < |entries|
        invariant 0 <= i <= |entries| && log == PlacedAll(old(log), entries[..i])
      {
        assert entries[..i + 1][..|entries[..i + 1]| - 1] == entries[..i];
        var e := entries[i];
        i := i + 1;
        if e.index < 0 { continue; }
        if e.index < |log| && log[e.index].term != e.term { log := log[..e.index]; }
        if e.index >= |log| { log := log + [e]; }
      }
      assert entries[..i] == entries;
    }

    /** `AppendEntry`: only a leader takes commands. */
    method AppendEntry(command: Bytes) returns (index: Option<int>)
      modifies this`log
      ensures Value() == if role.Leader? then Proposed(old(Value()), command) else old(Value())
      ensures index == if role.Leader? then Some(LastIndex(old(log)) + 1) else None
    {
      if !role.Leader? { return None; }
      var last := -1;
      if |log| > 0 { last := log[|log| - 1].index; }
      log := log + [LogEntry(last + 1, term, command)];
      return Some(last + 1);
    }

    /** What `replicateLog` sends to one peer. */
    method RequestFor(peer: nat) returns (prevIndex: int, prevTerm: int, entries: seq<LogEntry>)
      requires peer < |next|
      ensures prevIndex == next[peer] - 1 && prevTerm == TermAt(log, prevIndex) && entries == Suffix(log, next[peer])
    {
      prevIndex := next[peer] - 1;
      prevTerm := 0;
      if prevIndex >= 0 && prevIndex < |log| { prevTerm := log[prevIndex].term; }
      entries := [];
      if next[peer] >= 0 && next[peer] < |log| { entries := log[next[peer]..]; }
    }

    method HearAppendReply(replyTerm: nat, from: nat, prevIndex: int, count: nat, success: bool)
      requires from < |next| && from < |matched|
      modifies this
      ensures Value() == Heard(old(Value()), replyTerm, from, prevIndex, count, success)
    {
      if replyTerm > term {
        term, role, voted := replyTerm, Follower, NOBODY;
        return;
      }
      if success {
        var m := prevIndex + count;
        if m > matched[from] { matched, next := matched[from := m], next[from := m + 1]; }
      } else if next[from] > 0 {
        next := next[from := next[from] - 1];
      }
    }

    method AppendFailed(peer: nat)
      requires peer < |next|
      modifies this`next
      ensures Value() == Failed(old(Value()), peer)
    {
      if role.Leader? { next := next[peer := next[peer] - 1]; }
    }

    /** A crash and `readPersist`: the saved term and vote, and the prefix of the log that reached disk. */
    method Restart(kept: nat)
      requires kept <= |log|
      modifies this
      ensures Value() == Restarted(old(Value()), kept)
    {
      term, voted, role, log := savedTerm, savedVote, Follower, log[..kept];
      next, matched := Filled(|next|, 0), Filled(|matched|, 0);
    }
  }
}
