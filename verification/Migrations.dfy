/** The migration runner. First the loop itself, over a database that may fail it at any
    statement; then any number of runners at once, each between its statements. */
module Migrations {
  import opened Base

  datatype File = File(name: string, body: string)

  /** The embedded files in filename order, what executing a body does to a schema (None when
      the body is rejected), and the schema before any migration. */
  datatype Config<!S> = Config(files: seq<File>, execute: (S, string) -> Option<S>, blank: S)

  ghost predicate Distinct<S>(cfg: Config<S>) {
    forall i, j :: 0 <= i < j < |cfg.files| ==> cfg.files[i].name != cfg.files[j].name
  }

  /** A directory holds one file of a name. */
  lemma NamesTellFilesApart<S>(cfg: Config<S>)
    ensures Distinct(cfg) <==>
              forall i, j :: 0 <= i < |cfg.files| && 0 <= j < |cfg.files| ==>
                (cfg.files[i].name == cfg.files[j].name <==> i == j)
  {
  }

  /** The first `n` bodies executed in order, once each. */
  function Fold<S>(cfg: Config<S>, n: nat): Option<S>
    requires n <= |cfg.files|
  {
    if n == 0 then Some(cfg.blank)
    else
      match Fold(cfg, n - 1)
      case None => None
      case Some(schema) => cfg.execute(schema, cfg.files[n - 1].body)
  }

  function Names<S>(cfg: Config<S>, n: nat): set<string>
    requires n <= |cfg.files|
  {
    set i | 0 <= i < n :: cfg.files[i].name
  }

  /** The recorded versions are the first `n` file names, and the schema is theirs. */
  ghost predicate Applied<S>(cfg: Config<S>, versions: set<string>, schema: S, n: nat) {
    n <= |cfg.files| && versions == Names(cfg, n) && Fold(cfg, n) == Some(schema)
  }

  lemma RecordedIffEarlier<S>(cfg: Config<S>, n: nat, i: nat)
    requires Distinct(cfg) && n <= |cfg.files| && i < |cfg.files|
    ensures cfg.files[i].name in Names(cfg, n) <==> i < n
  {
    if cfg.files[i].name in Names(cfg, n) {
      var j :| 0 <= j < n && cfg.files[j].name == cfg.files[i].name;
      assert !(j < i) && !(i < j);
    }
  }

  lemma {:induction false} FoldStopsForGood<S>(cfg: Config<S>, n: nat, m: nat)
    requires n <= m <= |cfg.files| && Fold(cfg, n).None?
    ensures Fold(cfg, m).None?
  {
    if n < m {
      FoldStopsForGood(cfg, n, m - 1);
    }
  }

  /** A database has one applied prefix only. */
  lemma AppliedIsDetermined<S>(cfg: Config<S>, versions: set<string>, schema: S, n: nat, other: S, m: nat)
    requires Distinct(cfg) && Applied(cfg, versions, schema, n) && Applied(cfg, versions, other, m)
    ensures n == m && schema == other
  {
    if n < m {
      RecordedIffEarlier(cfg, m, n);
      RecordedIffEarlier(cfg, n, n);
    } else if m < n {
      RecordedIffEarlier(cfg, n, m);
      RecordedIffEarlier(cfg, m, m);
    }
  }

  // ----- One runner -----

  /** The statements at which a runner can be failed. */
  datatype Stage = CreateTable | Exists(i: nat) | Execute(i: nat) | Commit(i: nat)

  datatype Fault = NoFault | Fails | AnswerLost

  /** No statement about file `i` fails, given that the first `n` are applied. */
  predicate Unfailing(faults: Stage -> Fault, n: nat, i: nat) {
    && faults(Exists(i)) == NoFault
    && (n <= i ==> faults(Execute(i)) == NoFault && faults(Commit(i)) == NoFault)
  }

  class Database<S> {
    var versions: set<string>
    var schema: S

    constructor (blank: S)
      ensures versions == {} && schema == blank
    {
      versions := {};
      schema := blank;
    }

    /** Executes one body and records it, both or neither. */
    method ApplyOne(cfg: Config<S>, i: nat, faults: Stage -> Fault) returns (ok: bool)
      requires i < |cfg.files|
      modifies this
      ensures var next := cfg.execute(old(schema), cfg.files[i].body);
              var commits := && faults(Execute(i)) == NoFault && next.Some?
                             && faults(Commit(i)) != Fails && cfg.files[i].name !in old(versions);
              && ok == (commits && faults(Commit(i)) == NoFault)
              && versions == (if commits then old(versions) + {cfg.files[i].name} else old(versions))
              && schema == (if commits then next.value else old(schema))
    {
      if faults(Execute(i)) != NoFault {
        return false;
      }
      var next := cfg.execute(schema, cfg.files[i].body);
      if next.None? || faults(Commit(i)) == Fails || cfg.files[i].name in versions {
        return false;
      }
      schema := next.value;
      versions := versions + {cfg.files[i].name};
      ok := faults(Commit(i)) == NoFault;
    }

    /** From any applied prefix, whatever fails: a prefix at least as long is left, of files whose
        body ran and whose commit did not fail. A nil return means every file is applied, and is
        given exactly when every body executes and no statement that has to be run fails. A
        database already up to date is left as it was. */
    method Migrate(cfg: Config<S>, ghost n: nat, faults: Stage -> Fault) returns (ok: bool, ghost m: nat)
      requires Distinct(cfg) && Applied(cfg, versions, schema, n)
      modifies this
      ensures n <= m && Applied(cfg, versions, schema, m)
      ensures forall i :: n <= i < m ==> faults(Execute(i)) == NoFault && faults(Commit(i)) != Fails
      ensures forall i :: 0 <= i < |cfg.files| ==> (cfg.files[i].name in versions <==> i < m)
      ensures ok ==> m == |cfg.files|
      ensures ok <==>
                && faults(CreateTable) == NoFault
                && (forall i :: 0 <= i < |cfg.files| ==> Unfailing(faults, n, i))
                && Fold(cfg, |cfg.files|).Some?
      ensures n == |cfg.files| ==> versions == old(versions) && schema == old(schema)
    {
      m := n;
      if faults(CreateTable) != NoFault {
        return false, m;
      }
      var i := 0;
      while i < |cfg.files|
        invariant i <= |cfg.files| && n <= m && i <= m && Applied(cfg, versions, schema, m)
        invariant n == |cfg.files| ==> versions == old(versions) && schema == old(schema)
        invariant m == if i < n then n else i
        invariant forall j :: 0 <= j < i ==> Unfailing(faults, n, j)
        invariant forall j :: n <= j < m ==> faults(Execute(j)) == NoFault && faults(Commit(j)) != Fails
      {
        if faults(Exists(i)) != NoFault {
          assert !Unfailing(faults, n, i);
          return false, m;
        }
        RecordedIffEarlier(cfg, m, i);
        if cfg.files[i].name !in versions {
          ghost var before := schema;
          var applied := ApplyOne(cfg, i, faults);
          if cfg.execute(before, cfg.files[i].body).None? {
            FoldStopsForGood(cfg, i + 1, |cfg.files|);
          }
          if cfg.files[i].name in versions {
            m := m + 1;
          }
          if !applied {
            assert cfg.execute(before, cfg.files[i].body).Some? ==> !Unfailing(faults, n, i);
            return false, m;
          }
        }
        i := i + 1;
      }
      ok := true;
    }
  }

  // ----- Any number of runners -----

  /** Where one runner stands. `own` is how many of the files its build embeds: builds of
      different ages may run side by side. `outcome` is the schema its open transaction has
      computed from what it saw when it executed the body. */
  datatype Runner<+S> =
    | Preparing(own: nat)
    | Checking(own: nat, i: nat)
    | Applying(own: nat, i: nat)
    | Recording(own: nat, i: nat, outcome: S)
    | Returned(own: nat)
    | Failed(own: nat)

  /** Who committed which version, in order. */
  datatype Entry = Entry(name: string, runner: nat)

  datatype State<+S> = State(
    prepared: bool,
    versions: set<string>,
    schema: S,
    runners: map<nat, Runner<S>>,
    log: seq<Entry>)

  datatype Action =
    | Begin(c: nat, own: nat)
    | Proceed(c: nat)
    | Lose(c: nat, applied: bool)

  ghost predicate Enabled<S>(cfg: Config<S>, s: State<S>, a: Action) {
    match a
    case Begin(c, own) => c !in s.runners && own <= |cfg.files|
    case Proceed(c) => Busy(cfg, s, c)
    case Lose(c, _) => Busy(cfg, s, c)
  }

  ghost predicate Busy<S>(cfg: Config<S>, s: State<S>, c: nat) {
    && c in s.runners
    && match s.runners[c]
       case Preparing(_) => true
       case Checking(own, i) => s.prepared && i < own <= |cfg.files|
       case Applying(own, i) => i < own <= |cfg.files|
       case Recording(own, i, _) => i < own <= |cfg.files|
       case _ => false
  }

  /** The next turn of the loop. */
  function Arrive<S>(own: nat, i: nat): Runner<S> {
    if i < own then Checking(own, i) else Returned(own)
  }

  /** The primary key lets one transaction record a version. */
  predicate Commits<S>(cfg: Config<S>, s: State<S>, k: Runner<S>)
    requires k.Recording? ==> k.i < |cfg.files|
  {
    k.Recording? && cfg.files[k.i].name !in s.versions
  }

  function Effect<S>(cfg: Config<S>, s: State<S>, c: nat, k: Runner<S>): State<S>
    requires k.Recording? ==> k.i < |cfg.files|
  {
    if k.Preparing? then s.(prepared := true)
    else if Commits(cfg, s, k) then
      var name := cfg.files[k.i].name;
      s.(versions := s.versions + {name}, schema := k.outcome, log := s.log + [Entry(name, c)])
    else s
  }

  ghost function Next<S>(cfg: Config<S>, s: State<S>, k: Runner<S>): Runner<S>
    requires k.Checking? || k.Applying? || k.Recording? ==> k.i < |cfg.files|
  {
    match k
    case Preparing(own) => Arrive(own, 0)
    case Checking(own, i) => if cfg.files[i].name in s.versions then Arrive(own, i + 1) else Applying(own, i)
    case Applying(own, i) =>
      (match cfg.execute(s.schema, cfg.files[i].body)
       case None => Failed(own)
       case Some(outcome) => Recording(own, i, outcome))
    case Recording(own, i, _) => if Commits(cfg, s, k) then Arrive(own, i + 1) else Failed(own)
    case _ => k
  }

  ghost function Apply<S>(cfg: Config<S>, s: State<S>, a: Action): State<S>
    requires Enabled(cfg, s, a)
  {
    match a
    case Begin(c, own) => s.(runners := s.runners[c := Preparing(own)])
    case Proceed(c) =>
      var t := Effect(cfg, s, c, s.runners[c]);
      t.(runners := s.runners[c := Next(cfg, s, s.runners[c])])
    case Lose(c, applied) =>
      var t := if applied then Effect(cfg, s, c, s.runners[c]) else s;
      t.(runners := s.runners[c := Failed(s.runners[c].own)])
  }

  ghost predicate Runs<S>(cfg: Config<S>, s: State<S>, acts: seq<Action>)
    decreases |acts|
  {
    acts == [] ||
    (Enabled(cfg, s, acts[0]) && Runs(cfg, Apply(cfg, s, acts[0]), acts[1..]))
  }

  ghost function After<S>(cfg: Config<S>, s: State<S>, acts: seq<Action>): State<S>
    requires Runs(cfg, s, acts)
    decreases |acts|
  {
    if acts == [] then s else After(cfg, Apply(cfg, s, acts[0]), acts[1..])
  }

  function Blank<S>(cfg: Config<S>): State<S> {
    State(false, {}, cfg.blank, map[], [])
  }

  ghost predicate Reached<S>(cfg: Config<S>, past: seq<Action>, s: State<S>) {
    Distinct(cfg) && Runs(cfg, Blank(cfg), past) && s == After(cfg, Blank(cfg), past)
  }

  // ----- The invariant -----

  /** A runner is never ahead of the prefix; one whose file is the next to apply holds the
      outcome of executing it on the schema as it now is. */
  ghost predicate RunnerOk<S>(cfg: Config<S>, s: State<S>, k: Runner<S>) {
    && k.own <= |cfg.files|
    && match k
       case Checking(own, i) => s.prepared && i < own && i <= |s.log|
       case Applying(own, i) => s.prepared && i < own && i <= |s.log|
       case Recording(own, i, outcome) =>
         && s.prepared && i < own && i <= |s.log|
         && (i == |s.log| ==> cfg.execute(s.schema, cfg.files[i].body) == Some(outcome))
       case Returned(own) => own <= |s.log|
       case _ => true
  }

  ghost predicate LogOk<S>(cfg: Config<S>, s: State<S>) {
    && Applied(cfg, s.versions, s.schema, |s.log|)
    && forall i :: 0 <= i < |s.log| ==> s.log[i].name == cfg.files[i].name
  }

  ghost predicate Inv<S>(cfg: Config<S>, s: State<S>) {
    && LogOk(cfg, s)
    && forall c :: c in s.runners ==> RunnerOk(cfg, s, s.runners[c])
  }

  /** Whoever was about to commit the same file computed the same outcome, and is now behind. */
  lemma EffectKeepsInv<S>(cfg: Config<S>, s: State<S>, c: nat)
    requires Distinct(cfg) && Inv(cfg, s) && Busy(cfg, s, c)
    ensures Inv(cfg, Effect(cfg, s, c, s.runners[c]))
  {
    var k := s.runners[c];
    var s' := Effect(cfg, s, c, k);
    assert RunnerOk(cfg, s, k);
    forall d | d in s'.runners ensures RunnerOk(cfg, s', s'.runners[d]) {
      assert RunnerOk(cfg, s, s.runners[d]);
    }
  }

  lemma MovingKeepsInv<S>(cfg: Config<S>, s: State<S>, c: nat, k: Runner<S>)
    requires Inv(cfg, s) && RunnerOk(cfg, s, k)
    ensures Inv(cfg, s.(runners := s.runners[c := k]))
  {
    var s' := s.(runners := s.runners[c := k]);
    forall d | d in s'.runners ensures RunnerOk(cfg, s', s'.runners[d]) {
      assert RunnerOk(cfg, s, s'.runners[d]);
    }
  }

  lemma StepKeepsInv<S>(cfg: Config<S>, s: State<S>, a: Action)
    requires Distinct(cfg) && Inv(cfg, s) && Enabled(cfg, s, a)
    ensures Inv(cfg, Apply(cfg, s, a))
  {
    match a {
      case Begin(c, own) => MovingKeepsInv(cfg, s, c, Preparing(own));
      case Proceed(c) =>
        EffectKeepsInv(cfg, s, c);
        MovingKeepsInv(cfg, Effect(cfg, s, c, s.runners[c]), c, Next(cfg, s, s.runners[c]));
      case Lose(c, applied) =>
        EffectKeepsInv(cfg, s, c);
        assert RunnerOk(cfg, s, s.runners[c]);
        MovingKeepsInv(cfg, if applied then Effect(cfg, s, c, s.runners[c]) else s, c, Failed(s.runners[c].own));
    }
  }

  lemma {:induction false} RunKeepsInv<S>(cfg: Config<S>, s: State<S>, acts: seq<Action>)
    requires Distinct(cfg) && Inv(cfg, s) && Runs(cfg, s, acts)
    ensures Inv(cfg, After(cfg, s, acts))
    ensures s.log <= After(cfg, s, acts).log
    decreases |acts|
  {
    if acts != [] {
      StepKeepsInv(cfg, s, acts[0]);
      RunKeepsInv(cfg, Apply(cfg, s, acts[0]), acts[1..]);
    }
  }

  lemma ReachedIsOk<S>(cfg: Config<S>, past: seq<Action>, s: State<S>)
    requires Reached(cfg, past, s)
    ensures Inv(cfg, s)
  {
    assert Names(cfg, 0) == {};
    RunKeepsInv(cfg, Blank(cfg), past);
  }

  // ----- What any number of runners guarantee -----

  /** However many runners there are and wherever each fails, the recorded versions are a
      prefix of the file list and of no other length, the schema is those bodies executed in
      order once each, and each version was committed by one runner. */
  lemma AppliedIsAPrefix<S>(cfg: Config<S>, past: seq<Action>, s: State<S>)
    requires Reached(cfg, past, s)
    ensures Applied(cfg, s.versions, s.schema, |s.log|)
    ensures forall i :: 0 <= i < |s.log| ==> s.log[i].name == cfg.files[i].name
    ensures forall i, j :: 0 <= i < j < |s.log| ==> s.log[i].name != s.log[j].name
    ensures forall n, schema :: Applied(cfg, s.versions, schema, n) ==> n == |s.log| && schema == s.schema
  {
    ReachedIsOk(cfg, past, s);
    forall n, schema | Applied(cfg, s.versions, schema, n) ensures n == |s.log| && schema == s.schema {
      AppliedIsDetermined(cfg, s.versions, schema, n, s.schema, |s.log|);
    }
  }

  /** A runner that returned nil found or made every file of its build applied, and so they
      stay through any further run. */
  lemma NilMeansApplied<S>(cfg: Config<S>, past: seq<Action>, s: State<S>, acts: seq<Action>, c: nat)
    requires Reached(cfg, past, s) && c in s.runners && s.runners[c].Returned?
    requires Runs(cfg, s, acts)
    ensures s.runners[c].own <= |cfg.files|
    ensures Names(cfg, s.runners[c].own) <= After(cfg, s, acts).versions
  {
    ReachedIsOk(cfg, past, s);
    RunKeepsInv(cfg, s, acts);
    assert RunnerOk(cfg, s, s.runners[c]);
  }

  /** No runner, running or yet to begin, embeds a file that is not applied. */
  ghost predicate NothingNew<S>(s: State<S>, acts: seq<Action>) {
    && (forall c :: c in s.runners ==> s.runners[c].own <= |s.log|)
    && (forall a :: a in acts && a.Begin? ==> a.own <= |s.log|)
  }

  /** Rerunning is a no-op: where every file is applied already, no run changes versions or
      schema. */
  lemma {:induction false} RerunningIsANoOp<S>(cfg: Config<S>, past: seq<Action>, s: State<S>, acts: seq<Action>)
    requires Reached(cfg, past, s) && Runs(cfg, s, acts) && NothingNew(s, acts)
    ensures var s' := After(cfg, s, acts);
            s'.versions == s.versions && s'.schema == s.schema && s'.log == s.log
  {
    ReachedIsOk(cfg, past, s);
    NothingNewNothingDone(cfg, s, acts);
  }

  lemma {:induction false} NothingNewNothingDone<S>(cfg: Config<S>, s: State<S>, acts: seq<Action>)
    requires Distinct(cfg) && Inv(cfg, s) && Runs(cfg, s, acts) && NothingNew(s, acts)
    ensures var s' := After(cfg, s, acts);
            s'.versions == s.versions && s'.schema == s.schema && s'.log == s.log
    decreases |acts|
  {
    if acts != [] {
      var a := acts[0];
      if !a.Begin? && s.runners[a.c].Recording? {
        assert RunnerOk(cfg, s, s.runners[a.c]);
      }
      StepKeepsInv(cfg, s, a);
      NothingNewNothingDone(cfg, Apply(cfg, s, a), acts[1..]);
    }
  }

  // ----- Finishing and failing without faults -----

  predicate Resting<S>(k: Runner<S>) {
    k.Returned? || k.Failed?
  }

  /** A runner whose statements all work fails for two reasons only: a body is rejected, or
      another runner committed this very version after this one had looked for it. */
  lemma WhenAHealthyRunnerFails<S>(cfg: Config<S>, past: seq<Action>, s: State<S>, c: nat)
    requires Reached(cfg, past, s) && c in s.runners && !Resting(s.runners[c])
    ensures Enabled(cfg, s, Proceed(c)) && Enabled(cfg, s, Lose(c, true)) && Enabled(cfg, s, Lose(c, false))
    ensures var k := s.runners[c];
            c in Apply(cfg, s, Proceed(c)).runners
            && (Apply(cfg, s, Proceed(c)).runners[c].Failed? <==>
                  || (k.Applying? && cfg.execute(s.schema, cfg.files[k.i].body).None?)
                  || (k.Recording? && k.i < |s.log| && s.log[k.i].runner != c))
  {
    ReachedIsOk(cfg, past, s);
    var k := s.runners[c];
    assert RunnerOk(cfg, s, k);
    if k.Recording? {
      OwnCommitsAreBehind(cfg, past, s, c);
    }
  }

  /** What a runner committed itself lies before the file it is on. */
  ghost predicate Authored<S>(s: State<S>) {
    && (forall i :: 0 <= i < |s.log| ==> s.log[i].runner in s.runners)
    && (forall i {:trigger s.log[i]} :: 0 <= i < |s.log| ==>
          match s.runners[s.log[i].runner]
          case Checking(_, j) => i < j
          case Applying(_, j) => i < j
          case Recording(_, j, _) => i < j
          case Preparing(_) => false
          case _ => true)
  }

  lemma StepKeepsAuthors<S>(cfg: Config<S>, s: State<S>, a: Action)
    requires Distinct(cfg) && Inv(cfg, s) && Enabled(cfg, s, a) && Authored(s)
    ensures Authored(Apply(cfg, s, a))
  {
    if !a.Begin? && s.runners[a.c].Recording? {
      assert RunnerOk(cfg, s, s.runners[a.c]);
    }
  }

  lemma {:induction false} RunKeepsAuthors<S>(cfg: Config<S>, s: State<S>, acts: seq<Action>)
    requires Distinct(cfg) && Inv(cfg, s) && Runs(cfg, s, acts) && Authored(s)
    ensures Authored(After(cfg, s, acts))
    decreases |acts|
  {
    if acts != [] {
      StepKeepsInv(cfg, s, acts[0]);
      StepKeepsAuthors(cfg, s, acts[0]);
      RunKeepsAuthors(cfg, Apply(cfg, s, acts[0]), acts[1..]);
    }
  }

  lemma OwnCommitsAreBehind<S>(cfg: Config<S>, past: seq<Action>, s: State<S>, c: nat)
    requires Reached(cfg, past, s) && c in s.runners && s.runners[c].Recording?
    ensures forall i :: 0 <= i < |s.log| && s.log[i].runner == c ==> i < s.runners[c].i
  {
    assert Names(cfg, 0) == {};
    RunKeepsAuthors(cfg, Blank(cfg), past);
  }

  lemma Prepending<S>(cfg: Config<S>, s: State<S>, a: Action, rest: seq<Action>)
    requires Enabled(cfg, s, a) && Runs(cfg, Apply(cfg, s, a), rest)
    ensures Runs(cfg, s, [a] + rest) && After(cfg, s, [a] + rest) == After(cfg, Apply(cfg, s, a), rest)
  {
    assert ([a] + rest)[1..] == rest;
  }

  /** How far a runner is from resting. */
  function Left<S>(k: Runner<S>): nat {
    match k
    case Preparing(own) => 3 * own + 4
    case Checking(own, i) => if i < own then 3 * (own - i) + 2 else 1
    case Applying(own, i) => if i < own then 3 * (own - i) + 1 else 0
    case Recording(own, i, _) => if i < own then 3 * (own - i) else 0
    case _ => 0
  }

  /** The runner found its file missing, and another has recorded that file since. */
  predicate Overtaken<S>(s: State<S>, k: Runner<S>) {
    (k.Applying? || k.Recording?) && k.i < |s.log|
  }

  /** What comes of a runner that is left alone. */
  ghost function Fate<S>(cfg: Config<S>, s: State<S>, k: Runner<S>): Runner<S>
    requires k.own <= |cfg.files|
  {
    if k.Failed? || Overtaken(s, k) || Fold(cfg, k.own).None? then Failed(k.own) else Returned(k.own)
  }

  /** Its next step does not change that. */
  lemma StepKeepsFate<S>(cfg: Config<S>, s: State<S>, c: nat)
    requires Distinct(cfg) && Inv(cfg, s) && Busy(cfg, s, c)
    ensures var k := s.runners[c];
            var s' := Apply(cfg, s, Proceed(c));
            && c in s'.runners && k.own <= |cfg.files| && s'.runners[c].own == k.own
            && Fate(cfg, s', s'.runners[c]) == Fate(cfg, s, k)
            && Left(s'.runners[c]) < Left(k)
  {
    var k := s.runners[c];
    assert RunnerOk(cfg, s, k);
    match k {
      case Checking(own, i) => RecordedIffEarlier(cfg, |s.log|, i);
      case Applying(own, i) =>
        if i == |s.log| && cfg.execute(s.schema, cfg.files[i].body).None? {
          FoldStopsForGood(cfg, i + 1, own);
        }
      case _ =>
    }
  }

  lemma RestingFate<S>(cfg: Config<S>, s: State<S>, k: Runner<S>)
    requires LogOk(cfg, s) && RunnerOk(cfg, s, k) && Resting(k)
    ensures Fate(cfg, s, k) == k
  {
    if Fold(cfg, k.own).None? && k.Returned? {
      FoldStopsForGood(cfg, k.own, |s.log|);
    }
  }

  /** Left alone from any point, a runner comes to rest: it returns nil exactly when every body
      of its build executes and it had not been overtaken. A new runner never has been, so
      rerunning recovers from any crash and any conflict. */
  lemma {:induction false} LeftAlone<S>(cfg: Config<S>, s: State<S>, c: nat) returns (acts: seq<Action>)
    requires Distinct(cfg) && Inv(cfg, s) && c in s.runners
    ensures Runs(cfg, s, acts) && (forall a :: a in acts ==> a == Proceed(c))
    ensures var k := s.runners[c];
            && k.own <= |cfg.files|
            && c in After(cfg, s, acts).runners
            && After(cfg, s, acts).runners[c] == Fate(cfg, s, k)
    decreases Left(s.runners[c])
  {
    var k := s.runners[c];
    assert RunnerOk(cfg, s, k);
    if Resting(k) {
      RestingFate(cfg, s, k);
      acts := [];
    } else {
      StepKeepsInv(cfg, s, Proceed(c));
      StepKeepsFate(cfg, s, c);
      var rest := LeftAlone(cfg, Apply(cfg, s, Proceed(c)), c);
      Prepending(cfg, s, Proceed(c), rest);
      acts := [Proceed(c)] + rest;
    }
  }

  lemma {:induction false} Chaining<S>(cfg: Config<S>, s: State<S>, first: seq<Action>, second: seq<Action>)
    requires Runs(cfg, s, first) && Runs(cfg, After(cfg, s, first), second)
    ensures Runs(cfg, s, first + second)
    ensures After(cfg, s, first + second) == After(cfg, After(cfg, s, first), second)
    decreases |first|
  {
    if first == [] {
      assert first + second == second;
    } else {
      Chaining(cfg, Apply(cfg, s, first[0]), first[1..], second);
      assert (first + second)[1..] == first[1..] + second;
    }
  }

  const TURNS: seq<Action> := [Proceed(0), Proceed(1)]

  /** Runners 0 and 1 stand at the same place. */
  ghost predicate Together<S>(s: State<S>, k: Runner<S>) {
    s.runners == map[0 := k, 1 := k]
  }

  /** Until one of them commits, two runners taking turns stay together. */
  lemma TakingTurns<S>(cfg: Config<S>, s: State<S>, k: Runner<S>)
    requires Together(s, k) && Busy(cfg, s, 0) && !k.Recording?
    ensures Runs(cfg, s, TURNS)
    ensures var t := s.(prepared := s.prepared || k.Preparing?);
            After(cfg, s, TURNS) == t.(runners := map[0 := Next(cfg, t, k), 1 := Next(cfg, t, k)])
  {
    var s1 := Apply(cfg, s, Proceed(0));
    var s2 := Apply(cfg, s1, Proceed(1));
    Prepending(cfg, s1, Proceed(1), []);
    Prepending(cfg, s, Proceed(0), [Proceed(1)]);
    assert [Proceed(0)] + [Proceed(1)] == TURNS;
    assert s2.runners == map[0 := Next(cfg, s, k), 1 := Next(cfg, s, k)];
  }

  lemma TwoBegin<S>(cfg: Config<S>, own: nat)
    requires own <= |cfg.files|
    ensures Runs(cfg, Blank(cfg), [Begin(0, own), Begin(1, own)])
    ensures After(cfg, Blank(cfg), [Begin(0, own), Begin(1, own)]) ==
            Blank(cfg).(runners := map[0 := Preparing(own), 1 := Preparing(own)])
  {
    var s := Blank(cfg);
    var s1 := Apply(cfg, s, Begin(0, own));
    Prepending(cfg, s1, Begin(1, own), []);
    Prepending(cfg, s, Begin(0, own), [Begin(1, own)]);
    assert [Begin(0, own)] + [Begin(1, own)] == [Begin(0, own), Begin(1, own)];
  }

  lemma OneCommits<S>(cfg: Config<S>, met: State<S>, k: Runner<S>)
    requires cfg.files != [] && Together(met, k) && k.Recording?
    requires k.i == 0 && k.own == |cfg.files| && met.versions == {}
    ensures Runs(cfg, met, TURNS)
    ensures OnlyOneLived(cfg, After(cfg, met, TURNS))
  {
    var t := Apply(cfg, met, Proceed(0));
    Prepending(cfg, t, Proceed(1), []);
    Prepending(cfg, met, Proceed(0), [Proceed(1)]);
    assert [Proceed(0)] + [Proceed(1)] == TURNS;
  }

  ghost predicate OnlyOneLived<S>(cfg: Config<S>, s: State<S>)
    requires cfg.files != []
  {
    && s.versions == {cfg.files[0].name}
    && 0 in s.runners && !s.runners[0].Failed?
    && 1 in s.runners && s.runners[1].Failed?
  }

  /** Two servers starting on an empty database can both find the first version missing. One
      commits it; the other's Migrate fails although no statement of either went wrong. */
  lemma TwoStartsOneFails<S>(cfg: Config<S>) returns (acts: seq<Action>)
    requires cfg.files != [] && cfg.execute(cfg.blank, cfg.files[0].body).Some?
    ensures Runs(cfg, Blank(cfg), acts)
    ensures var s := After(cfg, Blank(cfg), acts);
            && s.versions == {cfg.files[0].name}
            && 0 in s.runners && !s.runners[0].Failed? && 1 in s.runners && s.runners[1].Failed?
    ensures forall a :: a in acts ==> !a.Lose?
  {
    var own := |cfg.files|;
    var s0 := Blank(cfg);
    acts := [Begin(0, own), Begin(1, own)];
    TwoBegin(cfg, own);
    var s1 := After(cfg, s0, acts);
    TakingTurns(cfg, s1, Preparing(own));
    Chaining(cfg, s0, acts, TURNS);
    acts := acts + TURNS;
    var s2 := After(cfg, s0, acts);
    TakingTurns(cfg, s2, Checking(own, 0));
    Chaining(cfg, s0, acts, TURNS);
    acts := acts + TURNS;
    var s3 := After(cfg, s0, acts);
    TakingTurns(cfg, s3, Applying(own, 0));
    Chaining(cfg, s0, acts, TURNS);
    acts := acts + TURNS;
    var s4 := After(cfg, s0, acts);
    OneCommits(cfg, s4, s4.runners[0]);
    Chaining(cfg, s0, acts, TURNS);
    acts := acts + TURNS;
  }
}
