/** How index handles keep excluded paths out of one database (`lib.rs:366-380`) while anyone may
    reload rules at any moment, also in the middle of a run. Handles with clones of one rule set
    share it (`exclude.rs:110-130`); every process on the database builds its own
    (`mct-mcp-server/src/main.rs:105`, `mct-cli/src/main.rs:966`) and learns of an edited ignore
    file only when it reloads. Rows are represented by the paths that have `files` or dependency rows. */
module ExclusionProtocol {
  import opened Wrappers
  import opened Exclude

  /** A set of rules with its clones: how often it swapped in new rules, and the current ones. */
  datatype Shared = Shared(swaps: nat, excluded: string -> bool)

  /** An open index, by the rule set it has a clone of. */
  datatype Handle = Handle(rules: nat, number: nat)

  /** All but the rows: the rule sets; by handle, the number of swaps of its set at the generation
      it recorded; and the sound handles. The recorded generation of a sound handle comes from a
      full run that committed, and no run has since committed that let a file through under rules
      laxer than its own. */
  datatype Config = Config(sets: map<nat, Shared>, applied: map<Handle, nat>, sound: set<Handle>)

  /** Progress of the one run that may be active. `gen` is the number of swaps when a full run
      read the generation; `pending` is a path that passed the exclusion check and was not yet
      written; `sweep` are the paths the final sweep has still to judge; `lax` are the handles
      under whose rules less is let through than the run has let through. */
  datatype Run = Run(
    who: Handle, full: bool, saved: set<string>, gen: Option<nat>, pending: Option<string>,
    sweep: Option<set<string>>, recorded: bool, lax: set<Handle>)

  datatype State = State(config: Config, rows: set<string>, run: Option<Run>)

  ghost predicate Excluded(c: Config, h: Handle, p: string) {
    h.rules in c.sets && c.sets[h.rules].excluded(p)
  }

  /** What a reader sees: the rows of the last commit. */
  function Stored(s: State): set<string> {
    if s.run.Some? then s.run.value.saved else s.rows
  }

  /** What `ExcludeSet::generation` returns: a wrapping 64-bit counter. */
  function Generation(c: Config, k: nat): nat
    requires k in c.sets
  {
    c.sets[k].swaps % U64
  }

  /** The `applied_exclusions` field of a handle. */
  function AppliedExclusions(c: Config, h: Handle): nat
    requires h in c.applied
  {
    c.applied[h] % U64
  }

  datatype Step =
    | Start(k: nat, rules: string -> bool)   // a process builds its rule set
    | Open(h: Handle)                        // a handle opens at the current generation
    | Reload(k: nat, rules: string -> bool)  // any clone of the set swaps in new rules
    | Begin(h: Handle, full: bool)
    | Escalate                               // an incremental run falls back to a full one
    | ReadGeneration
    | Check(path: string)                    // the exclusion check of one file
    | Write                                  // rows for the checked file, or none
    | Skip
    | Delete(path: string)
    | StartSweep
    | Sweep(path: string, keep: bool)
    | Record                                 // applied_exclusions := generation
    | Commit
    | Rollback                               // failure before the generation was recorded
    | LateRollback                           // failure after it: finishing or COMMIT failed

  /** Some path passes under the rules of `g` and not under those of `h`. */
  ghost predicate Laxer(c: Config, g: Handle, h: Handle) {
    exists p :: !Excluded(c, g, p) && Excluded(c, h, p)
  }

  ghost function Stricter(c: Config, g: Handle): set<Handle> {
    set h | h in c.applied && Laxer(c, g, h)
  }

  ghost predicate Init(s: State) {
    s.config == Config(map[], map[], {}) && s.run == None
  }

  ghost predicate Next(s: State, step: Step, t: State) {
    var c := s.config;
    match step
    case Start(k, rules) => k !in c.sets && t == s.(config := c.(sets := c.sets[k := Shared(0, rules)]))
    case Open(h) =>
      && h !in c.applied && h.rules in c.sets
      && t == s.(config := c.(applied := c.applied[h := c.sets[h.rules].swaps]))
    case Reload(k, rules) =>
      k in c.sets && t == s.(config := c.(sets := c.sets[k := Shared(c.sets[k].swaps + 1, rules)]))
    case Begin(h, full) =>
      && s.run.None? && h in c.applied
      && t == s.(run := Some(Run(h, full, s.rows, None, None, None, false, {})))
    case Escalate =>
      s.run.Some? && !s.run.value.full && s.run.value.pending.None?
      && t == s.(run := Some(s.run.value.(full := true)))
    case ReadGeneration =>
      s.run.Some? && s.run.value.full && s.run.value.gen.None? && s.run.value.who.rules in c.sets
      && t == s.(run := Some(s.run.value.(gen := Some(c.sets[s.run.value.who.rules].swaps))))
    case Check(p) =>
      && s.run.Some? && Walking(s.run.value) && s.run.value.pending.None?
      && var r := s.run.value;
         t == if Excluded(c, r.who, p) then s
              else s.(run := Some(r.(pending := Some(p), lax := r.lax + Stricter(c, r.who))))
    case Write =>
      && s.run.Some? && s.run.value.pending.Some?
      && t == s.(rows := s.rows + {s.run.value.pending.value}, run := Some(s.run.value.(pending := None)))
    case Skip =>
      && s.run.Some? && s.run.value.pending.Some?
      && t == s.(run := Some(s.run.value.(pending := None)))
    case Delete(p) => s.run.Some? && t == s.(rows := s.rows - {p})
    case StartSweep =>
      && s.run.Some? && s.run.value.gen.Some? && s.run.value.pending.None? && s.run.value.sweep.None?
      && t == s.(run := Some(s.run.value.(sweep := Some(s.rows))))
    case Sweep(p, keep) =>
      && s.run.Some? && s.run.value.sweep.Some? && p in s.run.value.sweep.value
      && t == s.(rows := if Excluded(c, s.run.value.who, p) || !keep then s.rows - {p} else s.rows,
                 run := Some(s.run.value.(sweep := Some(s.run.value.sweep.value - {p}))))
    case Record =>
      && s.run.Some? && s.run.value.sweep == Some({}) && !s.run.value.recorded && s.run.value.gen.Some?
      && var r := s.run.value;
         t == s.(config := c.(applied := c.applied[r.who := r.gen.value], sound := StillSound(c, r)),
                 run := Some(r.(recorded := true)))
    case Commit =>
      && s.run.Some? && s.run.value.pending.None? && (s.run.value.full ==> s.run.value.recorded)
      && var r := s.run.value;
         t == s.(config := c.(sound := c.sound - r.lax + (if r.full then {r.who} else {})), run := None)
    case Rollback => s.run.Some? && !s.run.value.recorded && t == s.(rows := s.run.value.saved, run := None)
    case LateRollback => s.run.Some? && s.run.value.recorded && t == s.(rows := s.run.value.saved, run := None)
  }

  /** A run indexes files before its sweep: an incremental one at any time, a full one once it
      has read the generation. */
  ghost predicate Walking(r: Run) {
    r.sweep.None? && (r.full ==> r.gen.Some?)
  }

  /** A handle that records another generation in a run that has yet to commit is not sound. */
  ghost function StillSound(c: Config, r: Run): set<Handle> {
    if r.who in c.applied && Some(c.applied[r.who]) == r.gen then c.sound else c.sound - {r.who}
  }

  ghost predicate Trace(steps: seq<Step>, states: seq<State>) {
    && |states| == |steps| + 1 && Init(states[0])
    && forall i :: 0 <= i < |steps| ==> Next(states[i], steps[i], states[i + 1])
  }

  // ------------------------------------------------------------ what every run keeps

  /** The recorded generation of `h` is the current one of its rule set. */
  ghost predicate Current(c: Config, h: Handle) {
    h in c.applied && h.rules in c.sets && c.applied[h] == c.sets[h.rules].swaps
  }

  /** Some sound handle has applied current rules that exclude `p`. */
  ghost predicate Barred(c: Config, p: string) {
    exists h :: h in c.sound && Current(c, h) && Excluded(c, h, p)
  }

  /** The same for the handles the active run has not overstepped. */
  ghost predicate BarredInRun(c: Config, lax: set<Handle>, p: string) {
    exists h :: h in c.sound && h !in lax && Current(c, h) && Excluded(c, h, p)
  }

  ghost predicate WellFormed(c: Config) {
    && (forall h :: h in c.applied ==> h.rules in c.sets && c.applied[h] <= c.sets[h.rules].swaps)
    && c.sound <= c.applied.Keys
  }

  ghost predicate RunInv(c: Config, rows: set<string>, r: Run) {
    && r.who in c.applied && r.who.rules in c.sets && r.who !in r.lax
    && (r.gen.Some? ==> r.full && r.gen.value <= c.sets[r.who.rules].swaps)
    && (r.recorded ==> r.gen.Some? && r.sweep == Some({}) && r.pending.None? && c.applied[r.who] == r.gen.value)
    && (r.sweep.Some? ==> r.gen.Some? && r.pending.None?)
    && (forall p :: p in rows || r.pending == Some(p) ==> !BarredInRun(c, r.lax, p))
    && (r.sweep.Some? && r.gen == Some(c.sets[r.who.rules].swaps) ==>
          forall p :: p in rows && Excluded(c, r.who, p) ==> p in r.sweep.value)
  }

  ghost predicate Inv(s: State) {
    && WellFormed(s.config)
    && (forall p :: p in Stored(s) ==> !Barred(s.config, p))
    && (s.run.Some? ==> RunInv(s.config, s.rows, s.run.value))
  }

  /** Only the commit of a full run makes a handle sound and current. */
  lemma SoundBack(s: State, step: Step, t: State, h: Handle)
    requires Inv(s) && Next(s, step, t) && h in t.config.sound && Current(t.config, h)
    ensures (step.Commit? && s.run.value.full && h == s.run.value.who)
      || (h in s.config.sound && Current(s.config, h)
          && forall p :: Excluded(t.config, h, p) <==> Excluded(s.config, h, p))
  {
  }

  lemma NextKeepsInv(s: State, step: Step, t: State)
    requires Inv(s) && Next(s, step, t)
    ensures Inv(t)
  {
    if step.Commit? {
      CommitKeepsInv(s, t);
    } else {
      forall p | Barred(t.config, p) ensures Barred(s.config, p) {
        var h :| h in t.config.sound && Current(t.config, h) && Excluded(t.config, h, p);
        SoundBack(s, step, t, h);
      }
      if t.run.Some? { RunKeepsInv(s, step, t); }
    }
  }

  lemma CommitKeepsInv(s: State, t: State)
    requires Inv(s) && Next(s, Commit, t)
    ensures Inv(t)
  {
    var r := s.run.value;
    forall p | Barred(t.config, p) ensures p !in t.rows {
      var h :| h in t.config.sound && Current(t.config, h) && Excluded(t.config, h, p);
      if h == r.who && r.full {
        assert r.gen == Some(s.config.sets[h.rules].swaps);
      } else {
        SoundBack(s, Commit, t, h);
        assert BarredInRun(s.config, r.lax, p);
      }
    }
  }

  lemma RunKeepsInv(s: State, step: Step, t: State)
    requires Inv(s) && Next(s, step, t) && t.run.Some? && WellFormed(t.config)
    ensures RunInv(t.config, t.rows, t.run.value)
  {
    var r := t.run.value;
    forall p | BarredInRun(t.config, r.lax, p) ensures p !in t.rows && r.pending != Some(p) {
      var h :| h in t.config.sound && h !in r.lax && Current(t.config, h) && Excluded(t.config, h, p);
      SoundBack(s, step, t, h);
      assert Barred(s.config, p);
      if s.run.Some? && h !in s.run.value.lax { assert BarredInRun(s.config, s.run.value.lax, p); }
    }
  }

  lemma {:induction false} TraceKeepsInv(steps: seq<Step>, states: seq<State>, i: nat)
    requires Trace(steps, states) && i < |states|
    ensures Inv(states[i])
  {
    if i > 0 {
      TraceKeepsInv(steps, states, i - 1);
      NextKeepsInv(states[i - 1], steps[i - 1], states[i]);
    }
  }

  /** Whoever reloaded the rules and whenever: while a handle is sound and its recorded generation
      equals that of its rule set, no row lies at a path its rules exclude, not even among the rows
      of a run that has not overstepped them. The counter wraps, so fewer than 2^64 swaps are assumed. */
  lemma NoExcludedRows(steps: seq<Step>, states: seq<State>, i: nat, h: Handle, p: string)
    requires Trace(steps, states) && i < |states|
    requires var c := states[i].config;
      && h in c.sound && h in c.applied && h.rules in c.sets && c.sets[h.rules].swaps < U64
      && AppliedExclusions(c, h) == Generation(c, h.rules)
    requires p in Stored(states[i])
      || (p in states[i].rows && (states[i].run.Some? ==> h !in states[i].run.value.lax))
    ensures !Excluded(states[i].config, h, p)
  {
    var s := states[i];
    TraceKeepsInv(steps, states, i);
    assert Current(s.config, h);
    Bars(s.config, if s.run.Some? then s.run.value.lax else {}, h, p);
  }

  lemma Bars(c: Config, lax: set<Handle>, h: Handle, p: string)
    requires h in c.sound && Current(c, h)
    ensures Excluded(c, h, p) ==> Barred(c, p)
    ensures Excluded(c, h, p) && h !in lax ==> BarredInRun(c, lax, p)
  {
  }

  /** A sound, current handle stays so while its rules are not swapped and no run lets a file
      through under laxer rules, whatever else fails, commits or is rolled back. */
  lemma {:induction false} SoundLasts(steps: seq<Step>, states: seq<State>, i: nat, j: nat, h: Handle)
    requires Trace(steps, states) && i <= j < |states|
    requires h in states[i].config.sound && Current(states[i].config, h) && states[i].run == None
    requires forall m :: i <= m < j && steps[m].Reload? ==> steps[m].k != h.rules
    requires forall m :: i <= m < j && steps[m].Check? && states[m].run.Some? ==>
      !Laxer(states[m].config, states[m].run.value.who, h)
    ensures var c := states[j].config;
      h in c.sound && Current(c, h) && c.sets[h.rules] == states[i].config.sets[h.rules]
    ensures var run := states[j].run;
      run.Some? ==> h !in run.value.lax && (run.value.who == h && run.value.gen.Some? ==>
                                              run.value.gen.value == states[j].config.applied[h])
  {
    if i < j {
      SoundLasts(steps, states, i, j - 1, h);
      TraceKeepsInv(steps, states, j - 1);
      assert Next(states[j - 1], steps[j - 1], states[j]);
    }
  }

  // ------------------------------------------------------------ exactly when it holds

  ghost predicate EndsIn(steps: seq<Step>, states: seq<State>, s: State) {
    Trace(steps, states) && states[|steps|] == s
  }

  ghost predicate Reachable(s: State) {
    exists steps, states :: EndsIn(steps, states, s)
  }

  lemma Extend(steps: seq<Step>, states: seq<State>, s: State, step: Step, t: State)
    requires EndsIn(steps, states, s) && Next(s, step, t)
    ensures EndsIn(steps + [step], states + [t], t)
  {
    var longer, reached := steps + [step], states + [t];
    forall i | 0 <= i < |longer| ensures Next(reached[i], longer[i], reached[i + 1]) {
      assert i < |steps| ==> Next(states[i], steps[i], states[i + 1]);
    }
  }

  lemma ReachNext(s: State, step: Step, t: State)
    requires Reachable(s) && Next(s, step, t)
    ensures Reachable(t)
  {
    var steps, states :| EndsIn(steps, states, s);
    Extend(steps, states, s, step, t);
  }

  lemma ReachableInv(s: State)
    requires Reachable(s)
    ensures Inv(s)
  {
    var steps, states :| EndsIn(steps, states, s);
    TraceKeepsInv(steps, states, |steps|);
  }

  /** A full run that meets no file and keeps the one row there is, its path being unreadable. */
  lemma ReachFullRun(c: Config, h: Handle, p: string)
    requires Reachable(State(c, {p}, None)) && h in c.applied && Current(c, h) && !Excluded(c, h, p)
    ensures Reachable(State(c.(sound := c.sound + {h}), {p}, None))
  {
    var s := State(c, {p}, None);
    var r := Run(h, true, {p}, None, None, None, false, {});
    var gen := Some(c.applied[h]);
    ReachNext(s, Begin(h, true), s.(run := Some(r)));
    ReachNext(s.(run := Some(r)), ReadGeneration, s.(run := Some(r.(gen := gen))));
    ReachNext(s.(run := Some(r.(gen := gen))), StartSweep, s.(run := Some(r.(gen := gen, sweep := Some({p})))));
    var swept := s.(run := Some(r.(gen := gen, sweep := Some({}))));
    assert {p} - {p} == {};
    ReachNext(s.(run := Some(r.(gen := gen, sweep := Some({p})))), Sweep(p, true), swept);
    var recorded := s.(run := Some(r.(gen := gen, sweep := Some({}), recorded := true)));
    assert c.applied[h := c.applied[h]] == c.applied;
    ReachNext(swept, Record, recorded);
    assert c.sound - {} + {h} == c.sound + {h};
    ReachNext(recorded, Commit, State(c.(sound := c.sound + {h}), {p}, None));
  }

  /** Every configuration is reached with a row at any path that no sound handle bars: one rule
      set `k` after the other is taken back to its start, the handles opened last first. */
  lemma {:induction false} Reach(c: Config, p: string, k: nat)
    requires WellFormed(c) && !Barred(c, p)
    requires k in c.sets || c.sets == map[]
    ensures Reachable(State(c, {p}, None))
    decreases |c.sets|, |c.applied|, if k in c.sets then c.sets[k].swaps else 0
  {
    hide Reachable, Barred;
    if c.sets == map[] {
      ReachInit(c, p);
    } else if h :| h in c.applied && h.rules == k && Current(c, h) {
      var before := c.(applied := c.applied - {h}, sound := c.sound - {h});
      assert |before.applied| < |c.applied| by { assert before.applied.Keys == c.applied.Keys - {h}; }
      NotBarred(c, before, p);
      Reach(before, p, k);
      ReachOpen(c, before, p, h);
    } else if c.sets[k].swaps > 0 {
      var before := c.(sets := c.sets[k := Shared(c.sets[k].swaps - 1, _ => false)]);
      NotBarred(c, before, p);
      Reach(before, p, k);
      ReachReload(c, before, p, k);
    } else {
      var before := c.(sets := c.sets - {k});
      assert |before.sets| < |c.sets| by { assert before.sets.Keys == c.sets.Keys - {k}; }
      forall h | h in c.applied ensures h.rules != k { assert !Current(c, h) || h.rules != k; }
      NotBarred(c, before, p);
      Reach(before, p, if before.sets == map[] then 0 else var other :| other in before.sets; other);
      ReachStart(c, before, p, k);
    }
  }

  lemma ReachStart(c: Config, before: Config, p: string, k: nat)
    requires k in c.sets && c.sets[k].swaps == 0 && before == c.(sets := c.sets - {k})
    requires Reachable(State(before, {p}, None))
    ensures Reachable(State(c, {p}, None))
  {
    hide Reachable;
    assert before.sets[k := c.sets[k]] == c.sets;
    ReachNext(State(before, {p}, None), Start(k, c.sets[k].excluded), State(c, {p}, None));
  }

  lemma ReachReload(c: Config, before: Config, p: string, k: nat)
    requires k in c.sets && c.sets[k].swaps > 0
    requires before == c.(sets := c.sets[k := Shared(c.sets[k].swaps - 1, _ => false)])
    requires Reachable(State(before, {p}, None))
    ensures Reachable(State(c, {p}, None))
  {
    hide Reachable;
    assert before.sets[k := c.sets[k]] == c.sets;
    ReachNext(State(before, {p}, None), Reload(k, c.sets[k].excluded), State(c, {p}, None));
  }

  /** A handle opens at the current generation and, to be sound, makes a full run. */
  lemma ReachOpen(c: Config, before: Config, p: string, h: Handle)
    requires WellFormed(c) && !Barred(c, p) && h in c.applied && Current(c, h)
    requires before == c.(applied := c.applied - {h}, sound := c.sound - {h})
    requires Reachable(State(before, {p}, None))
    ensures Reachable(State(c, {p}, None))
  {
    hide Reachable;
    var again := before.(applied := before.applied[h := c.applied[h]]);
    assert again.applied == c.applied;
    ReachNext(State(before, {p}, None), Open(h), State(again, {p}, None));
    if h in c.sound {
      assert again.sound + {h} == c.sound;
      assert !Excluded(c, h, p);
      ReachFullRun(again, h, p);
    } else {
      assert again.sound == c.sound;
    }
  }

  lemma ReachInit(c: Config, p: string)
    requires WellFormed(c) && c.sets == map[]
    ensures Reachable(State(c, {p}, None))
  {
    assert c.applied == map[] && c.sound == {};
    assert EndsIn([], [State(c, {p}, None)], State(c, {p}, None));
  }

  /** Taking back an opening, a reload or a start bars nothing new. */
  lemma NotBarred(c: Config, before: Config, p: string)
    requires WellFormed(c) && !Barred(c, p)
    requires forall h :: h in before.sound ==> h in c.sound
    requires forall h :: h in before.sound && Current(before, h) && Excluded(before, h, p) ==>
      Current(c, h) && Excluded(c, h, p)
    ensures !Barred(before, p)
  {
  }

  /** Which rows there can be, told from the rules and the recorded generations: a row may be
      stored at a path exactly when no sound, current handle excludes it. */
  lemma StoredIff(c: Config, p: string)
    requires WellFormed(c)
    ensures (exists s :: Reachable(s) && s.config == c && p in Stored(s)) <==> !Barred(c, p)
  {
    if s :| Reachable(s) && s.config == c && p in Stored(s) {
      ReachableInv(s);
    }
    if !Barred(c, p) {
      Reach(c, p, if c.sets == map[] then 0 else var k :| k in c.sets; k);
      assert p in Stored(State(c, {p}, None));
    }
  }

  /** The rule sets have swapped rules `swaps` times; their rules may be any. */
  ghost predicate Matches(c: Config, swaps: map<nat, nat>, applied: map<Handle, nat>, sound: set<Handle>) {
    && c.sets.Keys == swaps.Keys && (forall k :: k in swaps ==> c.sets[k].swaps == swaps[k])
    && c.applied == applied && c.sound == sound
  }

  ghost predicate CleanFor(s: State, k: nat) {
    k in s.config.sets && forall p :: p in Stored(s) ==> !s.config.sets[k].excluded(p)
  }

  /** Whatever the rules are, nothing that rule set `k` excludes is stored exactly when a sound
      handle of that set has recorded its current generation. */
  lemma PromiseIff(swaps: map<nat, nat>, applied: map<Handle, nat>, sound: set<Handle>, k: nat)
    requires k in swaps && sound <= applied.Keys
    requires forall h :: h in applied ==> h.rules in swaps && applied[h] <= swaps[h.rules]
    ensures (forall s :: Reachable(s) && Matches(s.config, swaps, applied, sound) ==> CleanFor(s, k))
       <==> exists h :: h in sound && h.rules == k && applied[h] == swaps[k]
  {
    if h :| h in sound && h.rules == k && applied[h] == swaps[k] {
      forall s | Reachable(s) && Matches(s.config, swaps, applied, sound) ensures CleanFor(s, k) {
        ReachableInv(s);
        assert Current(s.config, h);
        forall p | p in Stored(s) ensures !s.config.sets[k].excluded(p) {
          assert !Barred(s.config, p);
          assert !Excluded(s.config, h, p);
        }
      }
    } else {
      var sets := map m | m in swaps :: Shared(swaps[m], if m == k then (_ => true) else (_ => false));
      var c := Config(sets, applied, sound);
      var s := State(c, {"a"}, None);
      Reach(c, "a", k);
      assert "a" in Stored(s) && c.sets[k].excluded("a");
      assert Matches(s.config, swaps, applied, sound);
    }
  }

  // ------------------------------------------------------------ runs that show the failures

  /** A handle has recorded the current generation, nothing is running, and a row is excluded. */
  ghost predicate Broken(s: State, h: Handle) {
    && s.run == None && h in s.config.applied && h.rules in s.config.sets
    && AppliedExclusions(s.config, h) == Generation(s.config, h.rules)
    && exists p :: p in s.rows && Excluded(s.config, h, p)
  }

  const A := Handle(0, 0)
  const B := Handle(1, 0)

  /** A state reached after `i` steps, and the steps that lead on from it. */
  ghost predicate Continues(steps: seq<Step>, states: seq<State>, i: nat, s: State, more: seq<Step>) {
    Trace(steps, states) && i <= |steps| && states[i] == s && steps[i..] == more
  }

  lemma Go(steps: seq<Step>, states: seq<State>, i: nat, s: State, more: seq<Step>, step: Step, t: State)
    returns (longer: seq<Step>, reached: seq<State>)
    requires Continues(steps, states, i, s, more) && Next(states[|steps|], step, t)
    ensures Continues(longer, reached, i, s, more + [step]) && reached[|longer|] == t
  {
    Extend(steps, states, states[|steps|], step, t);
    longer, reached := steps + [step], states + [t];
  }

  lemma ReachConfig(c: Config, p: string, k: nat) returns (steps: seq<Step>, states: seq<State>)
    requires WellFormed(c) && !Barred(c, p) && k in c.sets
    ensures Continues(steps, states, |steps|, State(c, {p}, None), []) && states[|steps|] == State(c, {p}, None)
  {
    Reach(c, p, k);
    steps, states :| EndsIn(steps, states, State(c, {p}, None));
  }

  /** Without a committed full run the property fails: a handle that opens an old database has
      the current generation at once. */
  lemma OpenIsNotEnough(rules: string -> bool) returns (states: seq<State>)
    requires rules("a")
    ensures Trace([Start(0, rules), Open(A)], states) && Broken(states[2], A)
  {
    var s0 := State(Config(map[], map[], {}), {"a"}, None);
    var s1 := s0.(config := s0.config.(sets := map[0 := Shared(0, rules)]));
    var s2 := s1.(config := s1.config.(applied := map[A := 0]));
    states := [s0, s1, s2];
    assert "a" in s2.rows && Excluded(s2.config, A, "a");
  }

  /** A full run that drops the one row there is and fails after the generation was recorded. */
  lemma FailLate(
    steps: seq<Step>, states: seq<State>, i: nat, s: State, more: seq<Step>, c: Config, h: Handle, p: string)
    returns (longer: seq<Step>, reached: seq<State>, last: State)
    requires Continues(steps, states, i, s, more) && states[|steps|] == State(c, {p}, None)
    requires h in c.applied && h.rules in c.sets && c.applied[h] != c.sets[h.rules].swaps
    ensures Continues(longer, reached, i, s,
      more + [Begin(h, true), ReadGeneration, StartSweep, Sweep(p, false), Record, LateRollback])
    ensures last == State(Config(c.sets, c.applied[h := c.sets[h.rules].swaps], c.sound - {h}), {p}, None)
    ensures reached[|longer|] == last
  {
    hide Trace, Continues;
    var t := State(c, {p}, None);
    var r := Run(h, true, {p}, None, None, None, false, {});
    longer, reached := Go(steps, states, i, s, more, Begin(h, true), t.(run := Some(r)));
    var so := more + [Begin(h, true)];
    r := r.(gen := Some(c.sets[h.rules].swaps));
    longer, reached := Go(longer, reached, i, s, so, ReadGeneration, t.(run := Some(r)));
    so := so + [ReadGeneration];
    longer, reached := Go(longer, reached, i, s, so, StartSweep, t.(run := Some(r.(sweep := Some({p})))));
    so := so + [StartSweep];
    assert {p} - {p} == {};
    r := r.(sweep := Some({}));
    longer, reached := Go(longer, reached, i, s, so, Sweep(p, false), t.(rows := {}, run := Some(r)));
    so := so + [Sweep(p, false)];
    last := State(Config(c.sets, c.applied[h := c.sets[h.rules].swaps], c.sound - {h}), {p}, None);
    r := r.(recorded := true);
    longer, reached := Go(longer, reached, i, s, so, Record, last.(rows := {}, run := Some(r)));
    so := so + [Record];
    longer, reached := Go(longer, reached, i, s, so, LateRollback, last);
    assert so + [LateRollback] ==
      more + [Begin(h, true), ReadGeneration, StartSweep, Sweep(p, false), Record, LateRollback];
  }

  /** A failure after the generation was recorded breaks it too: the rows are rolled back and
      `applied_exclusions` is not. Until then the handle was sound. */
  lemma LateFailureBreaks(rules: string -> bool)
    returns (steps: seq<Step>, states: seq<State>, i: nat, s: State)
    requires rules("a")
    ensures Continues(steps, states, i, s, [Reload(0, rules)] +
      [Begin(A, true), ReadGeneration, StartSweep, Sweep("a", false), Record, LateRollback])
    ensures A in s.config.sound && Current(s.config, A) && Broken(states[|steps|], A)
  {
    hide Trace, Continues;
    var c := Config(map[0 := Shared(0, _ => false)], map[A := 0], {A});
    steps, states := ReachConfig(c, "a", 0);
    i, s := |steps|, State(c, {"a"}, None);
    var d := c.(sets := c.sets[0 := Shared(1, rules)]);
    steps, states := Go(steps, states, i, s, [], Reload(0, rules), s.(config := d));
    assert [] + [Reload(0, rules)] == [Reload(0, rules)];
    var last;
    steps, states, last := FailLate(steps, states, i, s, [Reload(0, rules)], d, A, "a");
    assert "a" in last.rows && Excluded(last.config, A, "a");
  }

  /** And so does an incremental run of a process that has not seen the edited rules: it lets a
      file through that the others exclude. Here every run commits. */
  lemma OtherRulesBreak(rules: string -> bool)
    returns (steps: seq<Step>, states: seq<State>, i: nat, s: State)
    requires rules("a") && !rules("b")
    ensures A in s.config.sound && Current(s.config, A) && s.config.sets[0].excluded == rules
    ensures Continues(steps, states, i, s, [Begin(B, false), Check("a"), Write, Commit])
    ensures Broken(states[|steps|], A)
  {
    hide Trace, Continues;
    var c := Config(map[0 := Shared(1, rules), 1 := Shared(0, _ => false)], map[A := 1, B := 0], {A});
    steps, states := ReachConfig(c, "b", 0);
    i, s := |steps|, State(c, {"b"}, None);
    var more: seq<Step> := [];
    var r := Run(B, false, {"b"}, None, None, None, false, {});
    steps, states := Go(steps, states, i, s, more, Begin(B, false), s.(run := Some(r)));
    more := more + [Begin(B, false)];
    r := r.(lax := {} + Stricter(c, B));
    steps, states := Go(steps, states, i, s, more, Check("a"), s.(run := Some(r.(pending := Some("a")))));
    more := more + [Check("a")];
    steps, states := Go(steps, states, i, s, more, Write, s.(rows := {"b"} + {"a"}, run := Some(r)));
    more := more + [Write];
    var t := State(c.(sound := {A} - r.lax + {}), {"b"} + {"a"}, None);
    steps, states := Go(steps, states, i, s, more, Commit, t);
    assert more + [Commit] == [Begin(B, false), Check("a"), Write, Commit];
    assert "a" in t.rows && Excluded(t.config, A, "a");
  }
}
