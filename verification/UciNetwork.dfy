/** The network configuration of a node, and the deployment with its checks, commit and rollback. */
module UciNetwork {

  import opened Wrappers
  import opened Text
  import opened WgQuick
  import opened Secrets
  import opened Uci
  import opened UciDeploy
  import opened UciOptions

  /** The state of the configuration file when the deployment begins. */
  datatype NetworkFile = Missing | Regular | SymbolicLink | TooLarge

  datatype Outcome = Invalid | CommandFailed | RestartFailed | RestoreFailed | Applied

  predicate Deployable(parsed: Parsed) {
    Present(parsed.privateKey) && forall k :: 0 <= k < |parsed.peers| ==> Present(parsed.peers[k].publicKey)
  }

  function ExpectedOutcome(name: string, parsed: Parsed, file: NetworkFile, replies: Replies): Outcome {
    if !Deployable(parsed) || file.SymbolicLink? || file.TooLarge? then Invalid
    else if !Runs(name, parsed, replies) then CommandFailed
    else if replies.comesUp then Applied
    else if file.Regular? && !replies.restores then RestoreFailed
    else RestartFailed
  }

  predicate Lacks(value: Option<string>) {
    value.None? || value.value == ""
  }

  /** What is refused before anything is changed: a missing key, or a file that is a link or too large. */
  ghost predicate Refused(parsed: Parsed, file: NetworkFile) {
    || file == SymbolicLink || file == TooLarge || Lacks(parsed.privateKey)
    || exists k :: 0 <= k < |parsed.peers| && Lacks(parsed.peers[k].publicKey)
  }

  lemma RefusedIff(parsed: Parsed, file: NetworkFile)
    ensures Refused(parsed, file) <==> !Deployable(parsed) || file.SymbolicLink? || file.TooLarge?
  {
    if !Deployable(parsed) && !Lacks(parsed.privateKey) {
      var k :| 0 <= k < |parsed.peers| && !Present(parsed.peers[k].publicKey);
      assert Lacks(parsed.peers[k].publicKey);
    }
  }

  /** The last sections describe the peers of a parsed configuration, in order. */
  ghost predicate EndsWithPeers(config: Config, name: string, parsed: Parsed) {
    var n := |parsed.peers|;
    |config| >= n && forall k :: 0 <= k < n ==> DescribesPeer(config[|config| - n + k], name, parsed.table, parsed.peers[k])
  }

  /** The configuration is the untouched rest, followed by sections that describe a parsed configuration. */
  ghost predicate RestAndDescribed(before: Config, after: Config, name: string, parsed: Parsed) {
    Rest(before, name) <= after && Describes(after[|Rest(before, name)|..], name, parsed)
  }

  /** The listing names every peer section, and every deletion works. */
  ghost predicate ClearsAll(config: Config, name: string, replies: Replies) {
    var lines := SplitLines(replies.listing);
    Announces(lines, name, config) && AllWork(replies.works, 0, |PeerIndices(name, lines)| + 1)
  }

  lemma InstalledEnds(config: Config, name: string, parsed: Parsed, replies: Replies)
    ensures EndsWithPeers(Installed(config, name, parsed, replies), name, parsed)
  {
    var made, n := Installed(config, name, parsed, replies), |parsed.peers|;
    forall k | 0 <= k < n ensures |made| >= n && DescribesPeer(made[|made| - n + k], name, parsed.table, parsed.peers[k]) {
      InstalledPeers(config, name, parsed, replies, k);
    }
  }

  lemma InstalledRest(config: Config, name: string, parsed: Parsed, replies: Replies)
    requires ClearsAll(config, name, replies)
    ensures RestAndDescribed(config, Installed(config, name, parsed, replies), name, parsed)
  {
    InstalledExactly(config, name, parsed, replies);
  }

  /** The network configuration: what is committed, and what is staged on top of it. */
  class Network {

    var committed: Config
    var staged: Config

    constructor (config: Config)
      ensures committed == config && staged == config
    {
      committed, staged := config, config;
    }

    method DeleteExisting(name: string, indices: seq<int>, works: nat -> bool)
      modifies this`staged
      ensures staged == Cleared(old(staged), name, indices, works)
    {
      var kind := PeerKind(name);
      var k := 0;
      while k < |indices|
        invariant 0 <= k <= |indices|
        invariant DeleteEach(staged, kind, indices[k..], works, k) == DeleteEach(old(staged), kind, indices, works, 0)
      {
        if works(k) {
          staged := Delete(staged, kind, indices[k]);
        }
        assert indices[k..][1..] == indices[k + 1..];
        k := k + 1;
      }
      if works(k) {
        staged := DeleteNamed(staged, name);
      }
    }

    /** Runs commands until one fails. */
    method RunCommands(script: seq<Command>, works: nat -> bool, first: nat) returns (ok: bool)
      modifies this`staged
      ensures ok == AllWork(works, first, first + |script|)
      ensures ok ==> staged == ExecAll(old(staged), script)
    {
      var k := 0;
      while k < |script|
        invariant 0 <= k <= |script|
        invariant AllWork(works, first, first + k)
        invariant staged == ExecAll(old(staged), script[..k])
      {
        if !works(first + k) {
          return false;
        }
        staged := Exec(staged, script[k]);
        assert script[..k + 1][..k] == script[..k];
        k := k + 1;
      }
      assert script[..k] == script;
      ok := true;
    }

    /** Stages a parsed configuration and commits it; on a failure nothing stays staged if the revert works. */
    method Install(name: string, parsed: Parsed, replies: Replies) returns (ok: bool)
      modifies this
      ensures ok == Runs(name, parsed, replies)
      ensures committed == if ok then Installed(old(staged), name, parsed, replies) else old(committed)
      ensures ok || replies.reverts ==> staged == committed
    {
      var indices := PeerIndices(name, SplitLines(replies.listing));
      DeleteExisting(name, indices, replies.works);
      ok := RunCommands(Script(name, parsed), replies.works, |indices| + 1);
      ok := ok && replies.commits;
      if ok {
        committed := staged;
      } else if replies.reverts {
        staged := committed;
      }
    }

    /**
    Deploys a parsed configuration. A failed command or commit leaves what was committed;
    a failed restart puts it back exactly when there was a file and it can be written.
     */
    method Deploy(name: string, parsed: Parsed, file: NetworkFile, replies: Replies) returns (outcome: Outcome)
      modifies this
      ensures outcome == ExpectedOutcome(name, parsed, file, replies)
      ensures outcome.Invalid? <==> Refused(parsed, file)
      ensures outcome.Invalid? ==> staged == old(staged) && committed == old(committed)
      ensures outcome.CommandFailed? ==> committed == old(committed)
      ensures outcome.Applied? ==> committed == Installed(old(staged), name, parsed, replies)
      ensures outcome.RestartFailed? || outcome.RestoreFailed? ==>
                committed == if file.Regular? && replies.restores then old(committed)
                             else Installed(old(staged), name, parsed, replies)
      ensures !outcome.Invalid? && (outcome.CommandFailed? ==> replies.reverts) ==> staged == committed
    {
      RefusedIff(parsed, file);
      if !Deployable(parsed) || file.SymbolicLink? || file.TooLarge? {
        return Invalid;
      }
      var snapshot := if file.Regular? then Some(committed) else None;
      var ok := Install(name, parsed, replies);
      if !ok {
        return CommandFailed;
      }
      if replies.comesUp {
        return Applied;
      }
      if snapshot.Some? && !replies.restores {
        return RestoreFailed;
      }
      if snapshot.Some? {
        committed, staged := snapshot.value, snapshot.value;
      }
      return RestartFailed;
    }

    /** Deploys a configuration given as text; what is committed is described option by option. */
    method ApplyConfig(name: string, text: string, file: NetworkFile, replies: Replies) returns (outcome: Outcome)
      modifies this
      ensures outcome == ExpectedOutcome(name, Parse(text, name), file, replies)
      ensures outcome.Invalid? <==> Refused(Parse(text, name), file)
      ensures outcome.Invalid? ==> staged == old(staged) && committed == old(committed)
      ensures outcome.CommandFailed? ==> committed == old(committed)
      ensures outcome.Applied? ==> committed == Installed(old(staged), name, Parse(text, name), replies)
      ensures outcome.RestartFailed? || outcome.RestoreFailed? ==>
                committed == if file.Regular? && replies.restores then old(committed)
                             else Installed(old(staged), name, Parse(text, name), replies)
      ensures !outcome.Invalid? && (outcome.CommandFailed? ==> replies.reverts) ==> staged == committed
      ensures outcome.Applied? ==> EndsWithPeers(committed, name, Parse(text, name))
      ensures outcome.Applied? && ClearsAll(old(staged), name, replies) ==>
                RestAndDescribed(old(staged), committed, name, Parse(text, name))
    {
      var parsed := ParseWgQuick(text, name);
      outcome := Deploy(name, parsed, file, replies);
      InstalledEnds(old(staged), name, parsed, replies);
      if ClearsAll(old(staged), name, replies) {
        InstalledRest(old(staged), name, parsed, replies);
      }
    }

    /** Deletes the interface and its peers; when the commit fails the deletions stay staged. */
    method DeleteConfig(name: string, replies: Replies) returns (ok: bool)
      modifies this
      ensures ok == replies.commits
      ensures staged == Cleared(old(staged), name, PeerIndices(name, SplitLines(replies.listing)), replies.works)
      ensures committed == if ok then staged else old(committed)
    {
      DeleteExisting(name, PeerIndices(name, SplitLines(replies.listing)), replies.works);
      ok := replies.commits;
      if ok {
        committed := staged;
      }
    }

  }

}
