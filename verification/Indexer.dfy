/** Which chains are indexed in a run of the node, and what that means for the completeness of their indices. */
module Indexers {
  type ChainID(==, !new)

  datatype FlagKey = HasRun | IsIncomplete(chain: ChainID) | PreviouslyIndexed(chain: ChainID)

  type Flags = set<FlagKey>

  datatype Outcome =
    | Ignored       // the indexer is closed, the chain is not on the primary network, or it is already indexed
    | LetThrough    // the chain runs without being indexed
    | Indexing
    | Died          // the indexer closes and shuts the node down
    | Abandoned     // the same, after the chain was marked as indexed

  /** The database or registration step that fails, if any. */
  datatype Failure = NoFailure | ReadIncomplete | ReadPreviously | WriteFlag | CreateIndex

  datatype Registration = Registration(chain: ChainID, onPrimary: bool, failure: Failure)

  // ---------------------------------------------------------------- one decision

  datatype Settings = Settings(indexingEnabled: bool, allowIncompleteIndex: bool, hasRunBefore: bool)

  /** What a run of the node holds in memory and in the database. */
  datatype State = State(closed: bool, indices: set<ChainID>, flags: Flags)

  /** Would running make an index incomplete, or go on with an incomplete one? */
  ghost predicate Forbidden(c: Settings, flags: Flags, chain: ChainID) {
    && !c.allowIncompleteIndex
    && if c.indexingEnabled
       then IsIncomplete(chain) in flags && (PreviouslyIndexed(chain) in flags || c.hasRunBefore)
       else PreviouslyIndexed(chain) in flags
  }

  ghost function Decision(c: Settings, s: State, r: Registration): Outcome {
    if s.closed || !r.onPrimary || r.chain in s.indices then Ignored
    else if r.failure.ReadIncomplete? || r.failure.ReadPreviously? || Forbidden(c, s.flags, r.chain) then Died
    else if r.failure.WriteFlag? then Died
    else if !c.indexingEnabled then LetThrough
    else if r.failure.CreateIndex? then Abandoned
    else Indexing
  }

  /** The flag that is written, if any: a chain is marked before its index is created. */
  ghost function Marks(c: Settings, s: State, r: Registration): Flags {
    match Decision(c, s, r)
    case Ignored => {}
    case LetThrough => {IsIncomplete(r.chain)}
    case Indexing => {PreviouslyIndexed(r.chain)}
    case Abandoned => {PreviouslyIndexed(r.chain)}
    case Died => {}
  }

  ghost function After(c: Settings, s: State, r: Registration): State {
    var o := Decision(c, s, r);
    State(s.closed || o.Died? || o.Abandoned?, if o.Indexing? then s.indices + {r.chain} else s.indices, s.flags + Marks(c, s, r))
  }

  // ---------------------------------------------------------------- whole histories

  /** A run starts unless the has-run flag cannot be read or written. */
  datatype Run = Run(starts: bool, indexingEnabled: bool, allowIncompleteIndex: bool, registrations: seq<Registration>)

  datatype Entry = Entry(chain: ChainID, allowIncompleteIndex: bool, outcome: Outcome)

  ghost function SettingsOf(run: Run, flags: Flags): Settings {
    Settings(run.indexingEnabled, run.allowIncompleteIndex, HasRun in flags)
  }

  ghost function StartOf(flags: Flags): State {
    State(false, {}, flags + {HasRun})
  }

  ghost function StateAfter(c: Settings, s: State, rs: seq<Registration>): State {
    if rs == [] then s else After(c, StateAfter(c, s, rs[..|rs| - 1]), rs[|rs| - 1])
  }

  /** The decisions of one run, in order. */
  ghost function RunLog(c: Settings, s: State, rs: seq<Registration>): seq<Entry> {
    if rs == [] then []
    else
      var front, last := rs[..|rs| - 1], rs[|rs| - 1];
      RunLog(c, s, front) + [Entry(last.chain, c.allowIncompleteIndex, Decision(c, StateAfter(c, s, front), last))]
  }

  /** The k-th entry is the decision on the k-th registration. */
  lemma {:induction false} RunLogEntry(c: Settings, s: State, rs: seq<Registration>, k: nat)
    requires k < |rs|
    ensures |RunLog(c, s, rs)| == |rs|
    ensures RunLog(c, s, rs)[k] == Entry(rs[k].chain, c.allowIncompleteIndex, Decision(c, StateAfter(c, s, rs[..k]), rs[k]))
  {
    var front := rs[..|rs| - 1];
    if k < |front| {
      RunLogEntry(c, s, front, k);
      assert front[..k] == rs[..k];
    } else if k > 0 {
      RunLogEntry(c, s, front, k - 1);
    }
  }

  ghost function FlagsAfter(runs: seq<Run>): Flags {
    if runs == [] then {}
    else
      var flags, run := FlagsAfter(runs[..|runs| - 1]), runs[|runs| - 1];
      if !run.starts then flags else StateAfter(SettingsOf(run, flags), StartOf(flags), run.registrations).flags
  }

  /** The decisions of all runs on one database, in order. */
  ghost function HistoryOf(runs: seq<Run>): seq<Entry> {
    if runs == [] then []
    else
      var front, run := runs[..|runs| - 1], runs[|runs| - 1];
      var flags := FlagsAfter(front);
      if !run.starts then HistoryOf(front)
      else HistoryOf(front) + RunLog(SettingsOf(run, flags), StartOf(flags), run.registrations)
  }

  // ---------------------------------------------------------------- completeness

  /** No chain is indexed after it was let through, nor let through after it was indexed,
      except in a run that allows incomplete indices. */
  ghost predicate Complete(log: seq<Entry>) {
    forall i, j :: 0 <= i < j < |log| && log[i].chain == log[j].chain && !log[j].allowIncompleteIndex ==>
      && !(log[i].outcome == LetThrough && log[j].outcome == Indexing)
      && !(log[i].outcome == Indexing && log[j].outcome == LetThrough)
  }

  ghost predicate EverLetThrough(log: seq<Entry>, chain: ChainID) {
    exists i :: 0 <= i < |log| && log[i].chain == chain && log[i].outcome == LetThrough
  }

  ghost predicate EverMarked(log: seq<Entry>, chain: ChainID) {
    exists i :: 0 <= i < |log| && log[i].chain == chain && (log[i].outcome == Indexing || log[i].outcome == Abandoned)
  }

  /** The incomplete flag is set for exactly the chains that were let through, the other one for exactly those that were
      indexed or abandoned, and a set flag of a chain implies the has-run flag. */
  ghost predicate FlagsTell(flags: Flags, log: seq<Entry>) {
    && (forall c :: IsIncomplete(c) in flags <==> EverLetThrough(log, c))
    && (forall c :: PreviouslyIndexed(c) in flags <==> EverMarked(log, c))
    && (forall c :: IsIncomplete(c) in flags || PreviouslyIndexed(c) in flags ==> HasRun in flags)
  }

  /** In a first run with indexing, no chain can have been marked incomplete. */
  ghost predicate InRun(c: Settings, s: State) {
    && HasRun in s.flags
    && (c.indexingEnabled && !c.hasRunBefore ==> forall x :: IsIncomplete(x) !in s.flags)
  }

  lemma DecisionTells(c: Settings, s: State, r: Registration, log: seq<Entry>)
    requires InRun(c, s) && FlagsTell(s.flags, log)
    ensures InRun(c, After(c, s, r))
    ensures FlagsTell(After(c, s, r).flags, log + [Entry(r.chain, c.allowIncompleteIndex, Decision(c, s, r))])
  {
    var e := Entry(r.chain, c.allowIncompleteIndex, Decision(c, s, r));
    var log' := log + [e];
    assert log'[|log|] == e;
    forall x ensures EverLetThrough(log', x) <==> EverLetThrough(log, x) || (x == r.chain && e.outcome == LetThrough) {
      if i :| 0 <= i < |log| && log[i].chain == x && log[i].outcome == LetThrough {
        assert log'[i].chain == x && log'[i].outcome == LetThrough;
      }
    }
    forall x
      ensures EverMarked(log', x) <==> EverMarked(log, x) || (x == r.chain && (e.outcome == Indexing || e.outcome == Abandoned))
    {
      if i :| 0 <= i < |log| && log[i].chain == x && (log[i].outcome == Indexing || log[i].outcome == Abandoned) {
        assert log'[i] == log[i];
      }
    }
  }

  lemma DecisionComplete(c: Settings, s: State, r: Registration, log: seq<Entry>)
    requires InRun(c, s) && FlagsTell(s.flags, log) && Complete(log)
    ensures Complete(log + [Entry(r.chain, c.allowIncompleteIndex, Decision(c, s, r))])
  {
    var o := Decision(c, s, r);
    forall i | 0 <= i < |log| && log[i].chain == r.chain && !c.allowIncompleteIndex
      ensures !(log[i].outcome == LetThrough && o == Indexing) && !(log[i].outcome == Indexing && o == LetThrough)
    {
      if log[i].outcome == LetThrough {
        assert EverLetThrough(log, r.chain);
      }
      if log[i].outcome == Indexing {
        assert EverMarked(log, r.chain);
      }
    }
  }

  lemma {:induction false} RunComplete(c: Settings, s: State, rs: seq<Registration>, log: seq<Entry>)
    requires InRun(c, s) && FlagsTell(s.flags, log) && Complete(log)
    ensures InRun(c, StateAfter(c, s, rs)) && FlagsTell(StateAfter(c, s, rs).flags, log + RunLog(c, s, rs))
    ensures Complete(log + RunLog(c, s, rs))
  {
    if rs == [] {
      assert log + [] == log;
    } else {
      var front, last := rs[..|rs| - 1], rs[|rs| - 1];
      RunComplete(c, s, front, log);
      var before := StateAfter(c, s, front);
      DecisionTells(c, before, last, log + RunLog(c, s, front));
      DecisionComplete(c, before, last, log + RunLog(c, s, front));
      var e := Entry(last.chain, c.allowIncompleteIndex, Decision(c, before, last));
      assert log + RunLog(c, s, rs) == log + RunLog(c, s, front) + [e];
    }
  }

  lemma StartTells(flags: Flags, log: seq<Entry>, run: Run)
    requires FlagsTell(flags, log)
    ensures InRun(SettingsOf(run, flags), StartOf(flags)) && FlagsTell(StartOf(flags).flags, log)
  {
  }

  /** For every sequence of runs on one database, with any settings and failures in each. */
  lemma {:induction false} HistoryComplete(runs: seq<Run>)
    ensures Complete(HistoryOf(runs)) && FlagsTell(FlagsAfter(runs), HistoryOf(runs))
  {
    if runs != [] {
      var front, run := runs[..|runs| - 1], runs[|runs| - 1];
      HistoryComplete(front);
      var flags := FlagsAfter(front);
      StartTells(flags, HistoryOf(front), run);
      RunComplete(SettingsOf(run, flags), StartOf(flags), run.registrations, HistoryOf(front));
    }
  }

  /** The has-run flag is set exactly after a run that started. */
  lemma {:induction false} HasRunMeaning(runs: seq<Run>)
    ensures HasRun in FlagsAfter(runs) <==> exists i :: 0 <= i < |runs| && runs[i].starts
  {
    if runs != [] {
      var k := |runs| - 1;
      var front, run := runs[..k], runs[k];
      HasRunMeaning(front);
      if run.starts {
        var flags := FlagsAfter(front);
        FlagsOnlyGrow(SettingsOf(run, flags), StartOf(flags), run.registrations);
        assert runs[k].starts;
      }
      if i :| 0 <= i < |front| && front[i].starts {
        assert runs[i].starts;
      }
    }
  }

  lemma {:induction false} FlagsOnlyGrow(c: Settings, s: State, rs: seq<Registration>)
    ensures s.flags <= StateAfter(c, s, rs).flags
  {
    if rs != [] { FlagsOnlyGrow(c, s, rs[..|rs| - 1]); }
  }

  ghost predicate Shut(log: seq<Entry>) {
    exists i :: 0 <= i < |log| && (log[i].outcome == Died || log[i].outcome == Abandoned)
  }

  ghost predicate Indexes(log: seq<Entry>, chain: ChainID) {
    exists i :: 0 <= i < |log| && log[i].chain == chain && log[i].outcome == Indexing
  }

  /** What the indexer holds in memory is what the run has decided. */
  lemma {:induction false} MemoryTells(c: Settings, s: State, rs: seq<Registration>, chain: ChainID)
    requires !s.closed && s.indices == {}
    ensures StateAfter(c, s, rs).closed <==> Shut(RunLog(c, s, rs))
    ensures chain in StateAfter(c, s, rs).indices <==> Indexes(RunLog(c, s, rs), chain)
  {
    if rs != [] {
      var front, last := rs[..|rs| - 1], rs[|rs| - 1];
      MemoryTells(c, s, front, chain);
      var log, log' := RunLog(c, s, front), RunLog(c, s, rs);
      assert log'[..|log|] == log;
      var o := log'[|log|].outcome;
      if i :| 0 <= i < |log| && (log[i].outcome == Died || log[i].outcome == Abandoned) {
        assert log'[i] == log[i];
      }
      if i :| 0 <= i < |log| && log[i].chain == chain && log[i].outcome == Indexing {
        assert log'[i] == log[i];
      }
    }
  }

  /** Every decision in terms of the decisions before it, of all runs and of this one. A chain is ignored if this run was
      shut down, does not concern it, or indexes it already. With incomplete indices disallowed the node shuts down on a
      chain if indexing it now would miss what was let through, or not indexing it now would interrupt its index. */
  lemma DecisionMeaning(runs: seq<Run>, run: Run, rs: seq<Registration>, r: Registration)
    ensures var flags := FlagsAfter(runs);
            var c, start := SettingsOf(run, flags), StartOf(flags);
            var now := RunLog(c, start, rs);
            var all := HistoryOf(runs) + now;
            Decision(c, StateAfter(c, start, rs), r) ==
              if Shut(now) || !r.onPrimary || Indexes(now, r.chain) then Ignored
              else if r.failure.ReadIncomplete? || r.failure.ReadPreviously? || r.failure.WriteFlag? then Died
              else if !run.allowIncompleteIndex && run.indexingEnabled && EverLetThrough(all, r.chain) then Died
              else if !run.allowIncompleteIndex && !run.indexingEnabled && EverMarked(all, r.chain) then Died
              else if !run.indexingEnabled then LetThrough
              else if r.failure.CreateIndex? then Abandoned
              else Indexing
  {
    var flags := FlagsAfter(runs);
    var c, start := SettingsOf(run, flags), StartOf(flags);
    HistoryComplete(runs);
    StartTells(flags, HistoryOf(runs), run);
    RunComplete(c, start, rs, HistoryOf(runs));
    MemoryTells(c, start, rs, r.chain);
  }

  /** With incomplete indices allowed and nothing failing, the node is never shut down. */
  lemma AllowedNeverDies(runs: seq<Run>, run: Run, rs: seq<Registration>, r: Registration)
    requires run.allowIncompleteIndex && r.failure.NoFailure?
    ensures var flags := FlagsAfter(runs);
            var c, start := SettingsOf(run, flags), StartOf(flags);
            var o := Decision(c, StateAfter(c, start, rs), r);
            o != Died && o != Abandoned
  {
    DecisionMeaning(runs, run, rs, r);
  }

  // ---------------------------------------------------------------- the objects

  /** The persisted flags. */
  class FlagDB {
    var flags: Flags

    constructor ()
      ensures flags == {}
    {
      flags := {};
    }
  }

  /** One run of the node. */
  class Indexer {
    const db: FlagDB
    const indexingEnabled: bool
    const allowIncompleteIndex: bool
    const hasRunBefore: bool
    var closed: bool
    var indices: set<ChainID>

    ghost function Config(): Settings {
      Settings(indexingEnabled, allowIncompleteIndex, hasRunBefore)
    }

    ghost function Now(): State
      reads this, db
    {
      State(closed, indices, db.flags)
    }

    /** The has-run flag is read before it is set. */
    constructor (db: FlagDB, indexingEnabled: bool, allowIncompleteIndex: bool)
      modifies db
      ensures this.db == db && Now() == StartOf(old(db.flags))
      ensures Config() == Settings(indexingEnabled, allowIncompleteIndex, HasRun in old(db.flags))
    {
      this.db, this.indexingEnabled, this.allowIncompleteIndex := db, indexingEnabled, allowIncompleteIndex;
      hasRunBefore := HasRun in db.flags;
      closed, indices := false, {};
      new;
      db.flags := db.flags + {HasRun};
    }

    method RegisterChain(chain: ChainID, onPrimary: bool, failure: Failure) returns (r: Outcome)
      modifies this, db
      ensures r == Decision(Config(), old(Now()), Registration(chain, onPrimary, failure))
      ensures Now() == After(Config(), old(Now()), Registration(chain, onPrimary, failure))
    {
      if closed || !onPrimary || chain in indices {
        return Ignored;
      }
      if failure.ReadIncomplete? || failure.ReadPreviously? {
        closed := true;
        return Died;
      }
      var isIncomplete := IsIncomplete(chain) in db.flags;
      var previouslyIndexed := PreviouslyIndexed(chain) in db.flags;
      if !indexingEnabled {
        if previouslyIndexed && !allowIncompleteIndex {
          closed := true;
          return Died;
        }
        if failure.WriteFlag? {
          closed := true;
          return Died;
        }
        db.flags := db.flags + {IsIncomplete(chain)};
        return LetThrough;
      }
      if !allowIncompleteIndex && isIncomplete && (previouslyIndexed || hasRunBefore) {
        closed := true;
        return Died;
      }
      if failure.WriteFlag? {
        closed := true;
        return Died;
      }
      db.flags := db.flags + {PreviouslyIndexed(chain)};
      if failure.CreateIndex? {
        closed := true;
        return Abandoned;
      }
      indices := indices + {chain};
      return Indexing;
    }
  }

  /** One run of the node on a database that earlier runs have left behind: the log is what was decided. */
  method RunOnce(db: FlagDB, run: Run) returns (log: seq<Entry>)
    modifies db
    ensures run.starts ==>
              var c, s := SettingsOf(run, old(db.flags)), StartOf(old(db.flags));
              log == RunLog(c, s, run.registrations) && db.flags == StateAfter(c, s, run.registrations).flags
    ensures !run.starts ==> log == [] && db.flags == old(db.flags)
  {
    log := [];
    if !run.starts {
      return;
    }
    ghost var c, s := SettingsOf(run, db.flags), StartOf(db.flags);
    var indexer := new Indexer(db, run.indexingEnabled, run.allowIncompleteIndex);
    for i := 0 to |run.registrations|
      invariant indexer.db == db && fresh(indexer) && indexer.Config() == c
      invariant indexer.Now() == StateAfter(c, s, run.registrations[..i])
      invariant log == RunLog(c, s, run.registrations[..i])
    {
      assert run.registrations[..i + 1][..i] == run.registrations[..i];
      var reg := run.registrations[i];
      var outcome := indexer.RegisterChain(reg.chain, reg.onPrimary, reg.failure);
      log := log + [Entry(reg.chain, run.allowIncompleteIndex, outcome)];
    }
    assert run.registrations[..|run.registrations|] == run.registrations;
  }

  /** Every sequence of runs on one database: the log is what was decided, and it is complete. */
  method RunAll(runs: seq<Run>) returns (log: seq<Entry>)
    ensures log == HistoryOf(runs) && Complete(log)
  {
    var db := new FlagDB();
    log := [];
    for i := 0 to |runs|
      invariant fresh(db) && db.flags == FlagsAfter(runs[..i]) && log == HistoryOf(runs[..i])
    {
      assert runs[..i + 1][..i] == runs[..i];
      var more := RunOnce(db, runs[i]);
      log := log + more;
    }
    assert runs[..|runs|] == runs;
    HistoryComplete(runs);
  }
}
