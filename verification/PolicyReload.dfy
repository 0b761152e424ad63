/**
  * The anonymization policy, its validating loader (src/anonymize.py), the start of a worker
  * (src/service.py) and its hot reload (src/policy_watcher.py). JSON parsing, upper-casing and the
  * content hash are parameters; a check's hash and its read of the file are one step.
  */
module PolicyReload {
  import opened Optional

  datatype Entry = Absent | Malformed | Names(names: seq<string>)

  /** A file's text as the JSON reader sees it. */
  datatype Document =
    | Undecodable
    | BadJson
    | NotAnObject
    | Object(pseudonymize: Entry, tokenize: Entry, redact: Entry)

  datatype Env = Env(parse: string -> Document, upper: string -> string, hash: string -> string)

  datatype Policy = Policy(pseudonymize: set<string>, tokenize: set<string>, redact: set<string>)

  datatype Reason = InvalidJson | WrongShape | NotStrings(key: string) | Overlapping | Uncovered(types: set<string>)

  /** `Raised` is an error other than the loader's own PolicyConfigError. */
  datatype LoadResult = Loaded(policy: Policy) | KeptLive | Rejected(reason: Reason) | Raised

  const CANONICAL_TYPES: set<string> := {"PERSON", "EMAIL", "IP", "SSN", "CREDIT_CARD", "MRN"}

  const DEFAULTS: Policy := Policy({"IP", "PERSON"}, {"EMAIL", "MRN", "CREDIT_CARD", "SSN"}, {})

  predicate PairwiseDisjoint(p: Policy)
  {
    p.pseudonymize * p.tokenize == {} && p.pseudonymize * p.redact == {} && p.tokenize * p.redact == {}
  }

  function Covered(p: Policy): set<string>
  {
    p.pseudonymize + p.tokenize + p.redact
  }

  /** What every request relies on: each canonical type has exactly one treatment. */
  predicate Complete(p: Policy)
  {
    PairwiseDisjoint(p) && CANONICAL_TYPES <= Covered(p)
  }

  lemma DefaultsAreComplete()
    ensures Complete(DEFAULTS)
  {
    var d := DEFAULTS;
    assert d.pseudonymize * d.tokenize == {} by {
      forall x | x in d.pseudonymize ensures x !in d.tokenize {
        assert |x| == 2 || |x| == 6;
        assert x == "IP" || x == "PERSON";
        assert "PERSON"[0] == 'P' && "EMAIL"[0] == 'E' && "MRN"[0] == 'M' && "CREDIT_CARD"[0] == 'C' && "SSN"[0] == 'S' && "IP"[0] == 'I';
      }
    }
    forall x | x in CANONICAL_TYPES ensures x in Covered(d) {
    }
  }

  function Types(env: Env, e: Entry): set<string>
  {
    if e.Names? then set v | v in e.names :: env.upper(v) else {}
  }

  function Load(env: Env, file: Option<string>): LoadResult
  {
    if file.None? then KeptLive else
      match env.parse(file.value)
      case Undecodable => Raised
      case BadJson => Rejected(InvalidJson)
      case NotAnObject => Rejected(WrongShape)
      case Object(p, t, r) =>
        if p.Malformed? then Rejected(NotStrings("pseudonymize_types"))
        else if t.Malformed? then Rejected(NotStrings("tokenize_types"))
        else if r.Malformed? then Rejected(NotStrings("redact_types"))
        else
          var loaded := Policy(Types(env, p), Types(env, t), Types(env, r));
          if !PairwiseDisjoint(loaded) then Rejected(Overlapping)
          else if !(CANONICAL_TYPES <= Covered(loaded)) then Rejected(Uncovered(CANONICAL_TYPES - Covered(loaded)))
          else Loaded(loaded)
  }

  /** The module globals that hold the live policy. */
  class LivePolicy {
    var sets: Policy

    constructor ()
      ensures sets == DEFAULTS
    {
      sets := DEFAULTS;
    }

    /** Validates completely before the live sets are touched. */
    method LoadPolicy(env: Env, file: Option<string>) returns (r: LoadResult)
      modifies this
      ensures r == Load(env, file)
      ensures sets == if r.Loaded? then r.policy else old(sets)
      ensures old(Complete(sets)) ==> Complete(sets)
    {
      if file.None? {
        return KeptLive;
      }
      var document := env.parse(file.value);
      if document.Undecodable? {
        return Raised;
      }
      if document.BadJson? {
        return Rejected(InvalidJson);
      }
      if document.NotAnObject? {
        return Rejected(WrongShape);
      }
      if document.pseudonymize.Malformed? {
        return Rejected(NotStrings("pseudonymize_types"));
      }
      var newPseudonymize := Types(env, document.pseudonymize);
      if document.tokenize.Malformed? {
        return Rejected(NotStrings("tokenize_types"));
      }
      var newTokenize := Types(env, document.tokenize);
      if document.redact.Malformed? {
        return Rejected(NotStrings("redact_types"));
      }
      var newRedact := Types(env, document.redact);
      ghost var loaded := Policy(newPseudonymize, newTokenize, newRedact);
      if newPseudonymize * newTokenize != {} || newPseudonymize * newRedact != {} || newTokenize * newRedact != {} {
        assert !PairwiseDisjoint(loaded);
        return Rejected(Overlapping);
      }
      assert PairwiseDisjoint(loaded);
      var missing := CANONICAL_TYPES - (newPseudonymize + newTokenize + newRedact);
      assert missing == CANONICAL_TYPES - Covered(loaded);
      if missing != {} {
        ghost var t :| t in missing;
        assert t in CANONICAL_TYPES && t !in Covered(loaded);
        return Rejected(Uncovered(missing));
      }
      forall t | t in CANONICAL_TYPES ensures t in Covered(loaded) {
        assert t !in missing;
      }
      sets := Policy(newPseudonymize, newTokenize, newRedact);
      r := Loaded(sets);
    }
  }

  // ------------------------------------------------------------------ the watcher

  datatype Outcome = Unchanged | Reloaded | Refused(reason: Reason) | Escaped

  datatype Event = Event(reloaded: bool, oldHash: Option<string>, newHash: Option<string>, triggeredBy: string)

  datatype State = State(live: Policy, knownHash: Option<string>, log: seq<Event>)

  function FileHash(env: Env, file: Option<string>): Option<string>
  {
    if file.None? then None else Some(env.hash(file.value))
  }

  function Check(env: Env, s: State, file: Option<string>, triggeredBy: string): (State, Outcome)
  {
    var newHash := FileHash(env, file);
    if newHash == s.knownHash then (s, Unchanged) else
      match Load(env, file)
      case Rejected(reason) => (s.(log := s.log + [Event(false, s.knownHash, newHash, triggeredBy)]), Refused(reason))
      case Raised => (s, Escaped)
      case Loaded(policy) => (State(policy, newHash, s.log + [Event(true, s.knownHash, newHash, triggeredBy)]), Reloaded)
      case KeptLive => (State(s.live, newHash, s.log + [Event(true, s.knownHash, newHash, triggeredBy)]), Reloaded)
  }

  class PolicyWatcher {
    const env: Env
    const policy: LivePolicy
    var lastKnownHash: Option<string>
    var lastOutcome: Option<Outcome>
    var auditLog: seq<Event>

    constructor (env: Env, policy: LivePolicy, file: Option<string>)
      ensures this.env == env && this.policy == policy
      ensures lastKnownHash == FileHash(env, file) && lastOutcome == None && auditLog == []
    {
      this.env, this.policy := env, policy;
      lastKnownHash, lastOutcome, auditLog := FileHash(env, file), None, [];
    }

    function View(): State
      reads this, policy
    {
      State(policy.sets, lastKnownHash, auditLog)
    }

    /** An escaping error leaves the recorded outcome as it was. */
    method CheckNow(file: Option<string>, triggeredBy: string) returns (outcome: Outcome)
      modifies this, policy
      ensures (View(), outcome) == Check(env, old(View()), file, triggeredBy)
      ensures lastOutcome == if outcome.Escaped? then old(lastOutcome) else Some(outcome)
    {
      var newHash := FileHash(env, file);
      if newHash == lastKnownHash {
        outcome := Unchanged;
      } else {
        var oldHash := lastKnownHash;
        var r := policy.LoadPolicy(env, file);
        if r.Raised? {
          return Escaped;
        }
        if r.Rejected? {
          auditLog := auditLog + [Event(false, oldHash, newHash, triggeredBy)];
          outcome := Refused(r.reason);
        } else {
          lastKnownHash := newHash;
          auditLog := auditLog + [Event(true, oldHash, newHash, triggeredBy)];
          outcome := Reloaded;
        }
      }
      lastOutcome := Some(outcome);
    }
  }

  // ------------------------------------------------------------------ whole runs

  /** The file as it stands at one check, and who asked for the check; edits in between leave no trace. */
  datatype Poll = Poll(file: Option<string>, triggeredBy: string)

  function Run(env: Env, s: State, polls: seq<Poll>): State
  {
    var n := |polls|;
    if n == 0 then s else Check(env, Run(env, s, polls[..n - 1]), polls[n - 1].file, polls[n - 1].triggeredBy).0
  }

  /** `events` link `first` to `last` without a gap. */
  ghost predicate Chain(events: seq<Event>, first: Option<string>, last: Option<string>)
  {
    if |events| == 0 then first == last
    else events[|events| - 1].newHash == last && Chain(events[..|events| - 1], first, events[|events| - 1].oldHash)
  }

  function ReloadedOnly(log: seq<Event>): seq<Event>
  {
    var n := |log|;
    if n == 0 then [] else ReloadedOnly(log[..n - 1]) + if log[n - 1].reloaded then [log[n - 1]] else []
  }

  lemma {:induction false} ChainGrows(events: seq<Event>, e: Event, first: Option<string>)
    requires Chain(events, first, e.oldHash)
    ensures Chain(events + [e], first, e.newHash)
  {
    assert (events + [e])[..|events|] == events;
  }

  lemma {:induction false} ReloadedOnlyGrows(log: seq<Event>, e: Event)
    ensures ReloadedOnly(log + [e]) == ReloadedOnly(log) + if e.reloaded then [e] else []
  {
    assert (log + [e])[..|log|] == log;
  }

  /** A check that does not reload leaves the policy and the known hash alone; it never shortens the log. */
  lemma OnlyReloadsChange(env: Env, s: State, file: Option<string>, triggeredBy: string)
    ensures var (t, outcome) := Check(env, s, file, triggeredBy);
            && (!outcome.Reloaded? ==> t.live == s.live && t.knownHash == s.knownHash && ReloadedOnly(t.log) == ReloadedOnly(s.log))
            && (outcome.Refused? <==> FileHash(env, file) != s.knownHash && Load(env, file).Rejected?)
            && (outcome.Refused? ==> t.log == s.log + [Event(false, s.knownHash, FileHash(env, file), triggeredBy)])
            && s.log <= t.log
  {
    ReloadedOnlyGrows(s.log, Event(false, s.knownHash, FileHash(env, file), triggeredBy));
  }

  lemma {:induction false} EveryRun(env: Env, s: State, polls: seq<Poll>)
    requires Complete(s.live) && s.log == []
    ensures Complete(Run(env, s, polls).live)
    ensures Chain(ReloadedOnly(Run(env, s, polls).log), s.knownHash, Run(env, s, polls).knownHash)
  {
    var n := |polls| - 1;
    if n >= 0 {
      var before, poll := Run(env, s, polls[..n]), polls[n];
      EveryRun(env, s, polls[..n]);
      OnlyReloadsChange(env, before, poll.file, poll.triggeredBy);
      var e := Event(true, before.knownHash, FileHash(env, poll.file), poll.triggeredBy);
      ReloadedOnlyGrows(before.log, e);
      ChainGrows(ReloadedOnly(before.log), e, s.knownHash);
    }
  }

  // ------------------------------------------------------------------ which policy is live

  ghost predicate NoCollision(env: Env, contents: set<string>)
  {
    forall c, d :: c in contents && d in contents && env.hash(c) == env.hash(d) ==> c == d
  }

  /** The live policy is that of the content whose hash is the known one. */
  ghost predicate Synced(env: Env, contents: set<string>, s: State)
  {
    forall c :: c in contents && s.knownHash == Some(env.hash(c)) ==> Load(env, Some(c)) == Loaded(s.live)
  }

  predicate PollsIn(polls: seq<Poll>, contents: set<string>)
  {
    forall i :: 0 <= i < |polls| && polls[i].file.Some? ==> polls[i].file.value in contents
  }

  lemma {:induction false} StaysSynced(env: Env, contents: set<string>, s: State, polls: seq<Poll>)
    requires NoCollision(env, contents) && PollsIn(polls, contents) && Synced(env, contents, s)
    ensures Synced(env, contents, Run(env, s, polls))
  {
    var n := |polls| - 1;
    if n >= 0 {
      var before, poll := Run(env, s, polls[..n]), polls[n];
      StaysSynced(env, contents, s, polls[..n]);
      forall c | c in contents && Run(env, s, polls).knownHash == Some(env.hash(c))
        ensures Load(env, Some(c)) == Loaded(Run(env, s, polls).live)
      {
        if poll.file.Some? && env.hash(poll.file.value) == env.hash(c) {
          assert poll.file.value == c;
        }
      }
    }
  }

  /**
    * Whatever happened before, a check that finds a valid file leaves exactly that file's policy live;
    * one that finds an invalid file, or none, leaves the policy as it was.
    */
  lemma {:induction false} CheckConverges(env: Env, contents: set<string>, s: State, polls: seq<Poll>, poll: Poll)
    requires NoCollision(env, contents) && PollsIn(polls + [poll], contents) && Synced(env, contents, s)
    ensures var before, now := Run(env, s, polls), Run(env, s, polls + [poll]);
            match Load(env, poll.file)
            case Loaded(policy) => now.live == policy && now.knownHash == FileHash(env, poll.file)
            case KeptLive => now.live == before.live && now.knownHash == None
            case Rejected(_) => now.live == before.live && now.knownHash == before.knownHash != FileHash(env, poll.file)
            case Raised => now == before
  {
    var before := Run(env, s, polls);
    assert (polls + [poll])[..|polls|] == polls && (polls + [poll])[|polls|] == poll;
    assert forall i :: 0 <= i < |polls| ==> (polls + [poll])[i] == polls[i];
    StaysSynced(env, contents, s, polls);
    assert Run(env, s, polls + [poll]) == Check(env, before, poll.file, poll.triggeredBy).0;
    if poll.file.Some? && before.knownHash == Some(env.hash(poll.file.value)) {
      assert Load(env, poll.file) == Loaded(before.live);
    }
  }

  // ------------------------------------------------------------------ start-up and deletion

  /** What a worker starts with: it refuses to start on an invalid file, and runs on the built-in sets without one. */
  function StartPolicy(env: Env, file: Option<string>): Option<Policy>
  {
    match Load(env, file)
    case Loaded(policy) => Some(policy)
    case KeptLive => Some(DEFAULTS)
    case Rejected(_) => None
    case Raised => None
  }

  /** The policy is loaded first and the watcher, made later, hashes the file once more. */
  function Boot(env: Env, atLoad: Option<string>, atWatch: Option<string>): Option<State>
  {
    var start := StartPolicy(env, atLoad);
    if start.None? then None else Some(State(start.value, FileHash(env, atWatch), []))
  }

  method Start(env: Env, atLoad: Option<string>, atWatch: Option<string>) returns (watcher: Option<PolicyWatcher>)
    ensures watcher.Some? <==> Boot(env, atLoad, atWatch).Some?
    ensures watcher.Some? ==> watcher.value.env == env && watcher.value.View() == Boot(env, atLoad, atWatch).value
  {
    var policy := new LivePolicy();
    var r := policy.LoadPolicy(env, atLoad);
    if r.Rejected? || r.Raised? {
      return None;
    }
    var w := new PolicyWatcher(env, policy, atWatch);
    watcher := Some(w);
  }

  /** The policy of the last poll that found a valid file. */
  function LastLoaded(env: Env, polls: seq<Poll>): Option<Policy>
  {
    var n := |polls|;
    if n == 0 then None
    else
      var r := Load(env, polls[n - 1].file);
      if r.Loaded? then Some(r.policy) else LastLoaded(env, polls[..n - 1])
  }

  function OrElse(p: Option<Policy>, other: Policy): Policy
  {
    if p.Some? then p.value else other
  }

  /** The known content, if it is a valid one, has the live policy. */
  ghost predicate InStep(env: Env, contents: set<string>, s: State)
  {
    forall c :: c in contents && s.knownHash == Some(env.hash(c)) && Load(env, Some(c)).Loaded? ==> Load(env, Some(c)).policy == s.live
  }

  lemma {:induction false} StepStaysInStep(env: Env, contents: set<string>, s: State, poll: Poll)
    requires NoCollision(env, contents) && InStep(env, contents, s) && (poll.file.Some? ==> poll.file.value in contents)
    ensures var t := Check(env, s, poll.file, poll.triggeredBy).0;
            InStep(env, contents, t) && t.live == OrElse(LastLoaded(env, [poll]), s.live)
  {
    var t := Check(env, s, poll.file, poll.triggeredBy).0;
    assert [poll][0] == poll && [poll][..0] == [];
    forall c | c in contents && t.knownHash == Some(env.hash(c)) && Load(env, Some(c)).Loaded?
      ensures Load(env, Some(c)).policy == t.live
    {
      if poll.file.Some? && env.hash(poll.file.value) == env.hash(c) {
        assert poll.file.value == c;
      }
    }
  }

  /** From a state in step, the live policy is always that of the last valid file any poll has found. */
  lemma {:induction false} LiveIsLastLoaded(env: Env, contents: set<string>, s: State, polls: seq<Poll>)
    requires NoCollision(env, contents) && PollsIn(polls, contents) && InStep(env, contents, s)
    ensures InStep(env, contents, Run(env, s, polls))
    ensures Run(env, s, polls).live == OrElse(LastLoaded(env, polls), s.live)
  {
    var n := |polls| - 1;
    if n >= 0 {
      LiveIsLastLoaded(env, contents, s, polls[..n]);
      StepStaysInStep(env, contents, Run(env, s, polls[..n]), polls[n]);
    }
  }

  /**
    * A file edited between start-up's load and the watcher's first hash is taken as known without ever
    * having been loaded. Every run then shows the last valid file exactly when the hashed file is either
    * invalid, absent, or has the policy the worker started with.
    */
  lemma {:induction false} EditsReachWorkerIff(env: Env, contents: set<string>, atLoad: Option<string>, atWatch: Option<string>)
    requires NoCollision(env, contents) && Boot(env, atLoad, atWatch).Some?
    requires atWatch.Some? ==> atWatch.value in contents
    ensures (forall polls :: PollsIn(polls, contents) ==>
               var s := Boot(env, atLoad, atWatch).value;
               Run(env, s, polls).live == OrElse(LastLoaded(env, polls), s.live))
       <==> (Load(env, atWatch).Loaded? ==> Load(env, atWatch).policy == Boot(env, atLoad, atWatch).value.live)
  {
    var s := Boot(env, atLoad, atWatch).value;
    if Load(env, atWatch).Loaded? && Load(env, atWatch).policy != s.live {
      MissedEdit(env, s, atWatch, "poller");
      assert PollsIn([Poll(atWatch, "poller")], contents);
    } else {
      assert InStep(env, contents, s);
      forall polls | PollsIn(polls, contents) ensures Run(env, s, polls).live == OrElse(LastLoaded(env, polls), s.live) {
        LiveIsLastLoaded(env, contents, s, polls);
      }
    }
  }

  lemma {:induction false} MissedEdit(env: Env, s: State, file: Option<string>, triggeredBy: string)
    requires s.knownHash == FileHash(env, file) && Load(env, file).Loaded?
    ensures Run(env, s, [Poll(file, triggeredBy)]).live == s.live
    ensures LastLoaded(env, [Poll(file, triggeredBy)]) == Some(Load(env, file).policy)
  {
    var polls := [Poll(file, triggeredBy)];
    assert polls[..0] == [] && Run(env, s, polls[..0]) == s;
  }

  /** Every poll repeating the content hashed at start-up leaves the worker on the policy it started with. */
  lemma {:induction false} MissedEditStaysMissed(env: Env, s: State, polls: seq<Poll>)
    requires forall i :: 0 <= i < |polls| ==> FileHash(env, polls[i].file) == s.knownHash
    ensures Run(env, s, polls) == s
  {
    if |polls| > 0 {
      MissedEditStaysMissed(env, s, polls[..|polls| - 1]);
    }
  }

  lemma {:induction false} LastLoadedAfter(env: Env, first: Poll, polls: seq<Poll>)
    ensures LastLoaded(env, [first] + polls) == if LastLoaded(env, polls).Some? then LastLoaded(env, polls) else LastLoaded(env, [first])
  {
    var n := |polls|;
    if n == 0 {
      assert [first] + polls == [first];
    } else {
      assert ([first] + polls)[..n] == [first] + polls[..n - 1];
      LastLoadedAfter(env, first, polls[..n - 1]);
    }
  }

  /**
    * Deleting the file does not bring the built-in defaults back: on any run of a worker started on
    * `file`, the defaults are live after a check without a file exactly when no valid file was ever
    * found, at start-up or by a poll, or the last one found is itself the defaults.
    */
  lemma {:induction false} DefaultsAfterDeletionIff(env: Env, contents: set<string>, file: Option<string>, polls: seq<Poll>, triggeredBy: string)
    requires NoCollision(env, contents) && PollsIn([Poll(file, "")] + polls, contents) && Boot(env, file, file).Some?
    ensures var now := Run(env, Boot(env, file, file).value, polls + [Poll(None, triggeredBy)]);
            var last := LastLoaded(env, [Poll(file, "")] + polls);
            now.knownHash == None && (now.live == DEFAULTS <==> last.None? || last.value == DEFAULTS)
  {
    var s, first, gone := Boot(env, file, file).value, Poll(file, ""), Poll(None, triggeredBy);
    PollsFollow(first, polls, contents);
    assert InStep(env, contents, s) by {
      assert ([first] + polls)[0] == first;
    }
    LiveIsLastLoaded(env, contents, s, polls);
    LastLoadedAfter(env, first, polls);
    assert [first][0] == first && [first][..0] == [];
    assert (polls + [gone])[..|polls|] == polls && (polls + [gone])[|polls|] == gone;
  }

  lemma PollsFollow(first: Poll, polls: seq<Poll>, contents: set<string>)
    requires PollsIn([first] + polls, contents)
    ensures PollsIn(polls, contents)
  {
    forall i | 0 <= i < |polls| && polls[i].file.Some? ensures polls[i].file.value in contents {
      assert ([first] + polls)[i + 1] == polls[i];
    }
  }

  /** A worker started without a file, given one and then losing it, keeps the policy of the lost file. */
  lemma {:induction false} DefaultsDoNotComeBack(env: Env, file: string, triggeredBy: string)
    requires Load(env, Some(file)).Loaded? && Load(env, Some(file)).policy != DEFAULTS
    ensures Boot(env, None, None).Some? && Boot(env, None, None).value.live == DEFAULTS
    ensures var polls := [Poll(Some(file), triggeredBy), Poll(None, triggeredBy)];
            Run(env, Boot(env, None, None).value, polls).live == Load(env, Some(file)).policy != DEFAULTS
  {
    var s, a, b := Boot(env, None, None).value, Poll(Some(file), triggeredBy), Poll(None, triggeredBy);
    assert [a, b][..1] == [a] && [a][..0] == [];
    assert Run(env, s, [a][..0]) == s;
    assert Run(env, s, [a]) == Check(env, s, a.file, triggeredBy).0;
    assert Run(env, s, [a, b]) == Check(env, Run(env, s, [a]), b.file, triggeredBy).0;
  }

  /** Such a file: it asks for every canonical type to be redacted. */
  const REDACT_ALL: Env := Env(
    text => Object(Absent, Absent, Names(["PERSON", "EMAIL", "IP", "SSN", "CREDIT_CARD", "MRN"])), name => name, text => text)

  lemma RedactAllIsLoaded(file: string)
    ensures Load(REDACT_ALL, Some(file)) == Loaded(Policy({}, {}, CANONICAL_TYPES))
    ensures Load(REDACT_ALL, Some(file)).policy != DEFAULTS
  {
    var names := ["PERSON", "EMAIL", "IP", "SSN", "CREDIT_CARD", "MRN"];
    assert names[0] in names && names[1] in names && names[2] in names && names[3] in names && names[4] in names && names[5] in names;
    forall v ensures v in names <==> v in CANONICAL_TYPES {
    }
    forall v ensures v in Types(REDACT_ALL, Names(names)) <==> v in names {
      assert v in names ==> REDACT_ALL.upper(v) == v;
    }
    assert Types(REDACT_ALL, Names(names)) == CANONICAL_TYPES;
    assert Types(REDACT_ALL, Absent) == {};
    var p := Policy({}, {}, CANONICAL_TYPES);
    assert "IP" !in p.pseudonymize && "IP" in DEFAULTS.pseudonymize;
  }

  // ------------------------------------------------------------------ routing spans

  datatype Treatment = Redact | Pseudonymize | Tokenize | Leave

  /** `anonymize_by_policy` asks in this order. */
  function Treat(p: Policy, etype: string): Treatment
  {
    if etype in p.redact then Redact
    else if etype in p.pseudonymize then Pseudonymize
    else if etype in p.tokenize then Tokenize
    else Leave
  }

  /** In every reachable state no canonical type is left untouched, and the order of the questions is immaterial. */
  lemma {:induction false} CanonicalTypesAreTreated(env: Env, s: State, polls: seq<Poll>, etype: string)
    requires Complete(s.live) && s.log == [] && etype in CANONICAL_TYPES
    ensures var p := Run(env, s, polls).live;
            && Treat(p, etype) != Leave
            && (Treat(p, etype) == Redact <==> etype in p.redact)
            && (Treat(p, etype) == Pseudonymize <==> etype in p.pseudonymize)
            && (Treat(p, etype) == Tokenize <==> etype in p.tokenize)
  {
    EveryRun(env, s, polls);
    var p := Run(env, s, polls).live;
    assert etype in Covered(p);
    assert etype !in p.pseudonymize * p.tokenize && etype !in p.pseudonymize * p.redact && etype !in p.tokenize * p.redact;
  }
}
