/**
 Any number of builds of one registry snapshot sharing one detail directory. Each build
 writes every wanted file, then lists the directory and removes what it did not write. A
 write makes a staging directory next to its target, writes a file into it and renames the
 file over the target. The source leaves it to the library how a directory is removed. Two
 ways are modelled: list it, unlink what was listed and remove the empty directory, which
 fails if something was written into it meanwhile; or first try to remove it as it is, and do
 all that only if it is not empty.
 */
module NetworkRegistry {
  import opened Common

  /** Directory entries: a detail file, the staging directory of one write, anything else. */
  datatype Name = Detail(netuid: nat) | Staging(builder: nat, write: nat) | Other(name: string)

  type Content = string

  /**
   The subnets of the snapshot, the content of each detail file, how many builds run, and
   whether the removal of a directory first tries to remove it without listing it.
   */
  datatype Job = Job(wanted: seq<nat>, content: nat -> Content, builders: nat, probe: bool)

  /**
   `Writing(k)`: `k` files written; `Created(k)`: file `k` has a staging directory;
   `Staged(k)`: its content is written there; `Renamed(k)`: it is in place and the staging
   directory is still to go; `Failing(k)`: the write failed and cleans up after itself;
   `Pruning(todo)`: names listed and not yet removed; `Removing(todo, target, listed)`:
   inside the removal of a directory, with or without a listed file still to unlink.
   */
  datatype Phase =
    | Writing(k: nat) | Created(k: nat) | Staged(k: nat) | Renamed(k: nat) | Failing(k: nat)
    | Pruning(todo: set<Name>) | Removing(todo: set<Name>, target: Name, listed: bool)
    | Done | Failed

  /** The detail directory, the staging directories with a file in them, and the builds. */
  datatype System = System(dir: map<Name, Content>, filled: set<Name>, builders: seq<Phase>)

  function WantedNames(job: Job): set<Name> {
    set w | w in job.wanted :: Detail(w)
  }

  predicate Foreign(job: Job, n: Name) {
    n.Other? || (n.Detail? && n.netuid !in job.wanted)
  }

  /** The directory may hold anything but a staging directory of a write still to come. */
  ghost predicate Fresh(dir: map<Name, Content>) {
    forall n :: n in dir ==> !n.Staging?
  }

  function Start(job: Job, dir: map<Name, Content>): System {
    System(dir, {}, seq(job.builders, b requires 0 <= b < job.builders => Writing(0)))
  }

  /** Builder `b` goes on in phase `p`. */
  function Goto(s: System, b: nat, p: Phase): System
    requires b < |s.builders|
  {
    s.(builders := s.builders[b := p])
  }

  function Drop(s: System, n: Name): System {
    s.(dir := s.dir - {n}, filled := s.filled - {n})
  }

  /** The next action of a build that writes file `k`. */
  function WriteStep(job: Job, s: System, b: nat): System
    requires b < |s.builders|
  {
    match s.builders[b]
    case Writing(k) =>
      if k < |job.wanted| then Goto(s.(dir := s.dir[Staging(b, k) := ""]), b, Created(k))
      else Goto(s, b, Pruning(s.dir.Keys - WantedNames(job)))
    case Created(k) =>
      if Staging(b, k) in s.dir then Goto(s.(filled := s.filled + {Staging(b, k)}), b, Staged(k))
      else Goto(s, b, Failing(k))
    case Staged(k) =>
      if Staging(b, k) in s.dir && Staging(b, k) in s.filled && k < |job.wanted| then
        var dir := s.dir[Detail(job.wanted[k]) := job.content(job.wanted[k])];
        Goto(System(dir, s.filled - {Staging(b, k)}, s.builders), b, Renamed(k))
      else Goto(s, b, Failing(k))
    case Renamed(k) => Goto(Drop(s, Staging(b, k)), b, Writing(k + 1))
    case Failing(k) => Goto(Drop(s, Staging(b, k)), b, Failed)
    case _ => s
  }

  /** The next action of a build that prunes; `pick` is the entry it takes up next. */
  function PruneStep(job: Job, s: System, b: nat, pick: Name): System
    requires b < |s.builders|
  {
    match s.builders[b]
    case Pruning(todo) =>
      if todo == {} then Goto(s, b, Done)
      else if pick !in todo then s
      else if pick.Staging? && pick in s.dir && (pick in s.filled || !job.probe) then
        Goto(s, b, Removing(todo - {pick}, pick, pick in s.filled))
      else Goto(Drop(s, pick), b, Pruning(todo - {pick}))
    case Removing(todo, target, true) => Goto(s.(filled := s.filled - {target}), b, Removing(todo, target, false))
    case Removing(todo, target, false) =>
      if target in s.filled then Goto(s, b, Failed) else Goto(Drop(s, target), b, Pruning(todo))
    case _ => s
  }

  function Step(job: Job, s: System, b: nat, pick: Name): System
    requires b < |s.builders|
  {
    if s.builders[b].Pruning? || s.builders[b].Removing? then PruneStep(job, s, b, pick) else WriteStep(job, s, b)
  }

  type Move = (nat, Name)

  function Moved(job: Job, s: System, move: Move): System {
    if move.0 < |s.builders| then Step(job, s, move.0, move.1) else s
  }

  /** Any interleaving of any builders' actions. */
  function Run(job: Job, s: System, moves: seq<Move>): System
    decreases |moves|
  {
    if moves == [] then s else Run(job, Moved(job, s, moves[0]), moves[1..])
  }

  // ---- wanted files ----

  predicate Written(job: Job, s: System, i: nat)
    requires i < |job.wanted|
  {
    Detail(job.wanted[i]) in s.dir && s.dir[Detail(job.wanted[i])] == job.content(job.wanted[i])
  }

  predicate WrittenUpTo(job: Job, s: System, k: nat) {
    k <= |job.wanted| && forall i :: 0 <= i < k ==> Written(job, s, i)
  }

  ghost predicate NoForeignBut(job: Job, s: System, todo: set<Name>) {
    forall n :: n in s.dir && Foreign(job, n) ==> n in todo
  }

  ghost predicate BuilderOk(job: Job, s: System, p: Phase) {
    match p
    case Writing(k) => WrittenUpTo(job, s, k)
    case Created(k) => k < |job.wanted| && WrittenUpTo(job, s, k)
    case Staged(k) => k < |job.wanted| && WrittenUpTo(job, s, k)
    case Renamed(k) => k < |job.wanted| && WrittenUpTo(job, s, k + 1)
    case Pruning(todo) => WrittenUpTo(job, s, |job.wanted|) && NoForeignBut(job, s, todo) && todo !! WantedNames(job)
    case Removing(todo, target, _) =>
      WrittenUpTo(job, s, |job.wanted|) && NoForeignBut(job, s, todo) && todo !! WantedNames(job) && target.Staging?
    case Done => WrittenUpTo(job, s, |job.wanted|) && NoForeignBut(job, s, {})
    case _ => true
  }

  /** A staging directory belongs to a write under way, and only a staged write has a file in it. */
  ghost predicate StagingOk(s: System, n: Name) {
    n.Staging? ==>
      && (n in s.dir ==> n.builder < |s.builders|
                         && s.builders[n.builder] in
                              {Created(n.write), Staged(n.write), Renamed(n.write), Failing(n.write)})
      && (n in s.filled ==> n in s.dir && n.builder < |s.builders| && s.builders[n.builder] == Staged(n.write))
  }

  /** Build `b` has not failed and is not bound to: nothing it still needs has been removed. */
  predicate Sound(s: System, b: nat)
    requires b < |s.builders|
  {
    match s.builders[b]
    case Created(k) => Staging(b, k) in s.dir
    case Staged(k) => Staging(b, k) in s.dir && Staging(b, k) in s.filled
    case Failing(_) => false
    case Failed => false
    case _ => true
  }

  ghost predicate SomeSound(s: System) {
    exists b :: 0 <= b < |s.builders| && Sound(s, b)
  }

  ghost predicate Inv(job: Job, s: System) {
    && |s.builders| == job.builders
    && (forall b :: 0 <= b < |s.builders| ==> BuilderOk(job, s, s.builders[b]))
    && (forall n :: StagingOk(s, n))
    && (job.builders > 0 ==> SomeSound(s))
  }

  /** A wanted file, once there, stays there; its content only ever becomes the snapshot's. */
  lemma StepKeepsWanted(job: Job, s: System, b: nat, pick: Name, w: nat)
    requires b < |s.builders| && BuilderOk(job, s, s.builders[b]) && w in job.wanted && Detail(w) in s.dir
    ensures var s' := Step(job, s, b, pick);
            Detail(w) in s'.dir && (s'.dir[Detail(w)] == s.dir[Detail(w)] || s'.dir[Detail(w)] == job.content(w))
  {
    assert Detail(w) in WantedNames(job);
  }

  lemma StepKeepsWritten(job: Job, s: System, b: nat, pick: Name, k: nat)
    requires b < |s.builders| && BuilderOk(job, s, s.builders[b]) && WrittenUpTo(job, s, k)
    ensures WrittenUpTo(job, Step(job, s, b, pick), k)
  {
    forall i | 0 <= i < k ensures Written(job, Step(job, s, b, pick), i) {
      assert Written(job, s, i);
      StepKeepsWanted(job, s, b, pick, job.wanted[i]);
    }
  }

  /** Nobody creates a foreign entry. */
  lemma StepAddsNothingForeign(job: Job, s: System, b: nat, pick: Name, n: Name)
    requires b < |s.builders| && BuilderOk(job, s, s.builders[b]) && Foreign(job, n) && n in Step(job, s, b, pick).dir
    ensures n in s.dir
  {
  }

  /** What an action keeps for any phase: files written, and freedom from foreign entries. */
  lemma StepKeepsOk(job: Job, s: System, b: nat, pick: Name, p: Phase)
    requires b < |s.builders| && BuilderOk(job, s, s.builders[b]) && BuilderOk(job, s, p)
    ensures BuilderOk(job, Step(job, s, b, pick), p)
  {
    var s' := Step(job, s, b, pick);
    forall k | WrittenUpTo(job, s, k) ensures WrittenUpTo(job, s', k) {
      StepKeepsWritten(job, s, b, pick, k);
    }
    forall n | n in s'.dir && Foreign(job, n) ensures n in s.dir {
      StepAddsNothingForeign(job, s, b, pick, n);
    }
  }

  lemma WriterStaysOk(job: Job, s: System, b: nat, pick: Name)
    requires b < |s.builders| && BuilderOk(job, s, s.builders[b]) && !s.builders[b].Pruning? && !s.builders[b].Removing?
    ensures BuilderOk(job, Step(job, s, b, pick), Step(job, s, b, pick).builders[b])
  {
    StepKeepsOk(job, s, b, pick, s.builders[b]);
    var s' := Step(job, s, b, pick);
    if s.builders[b].Writing? && s.builders[b].k == |job.wanted| {
      assert s'.builders[b].todo == s.dir.Keys - WantedNames(job);
    }
  }

  lemma PrunerStaysOk(job: Job, s: System, b: nat, pick: Name)
    requires b < |s.builders| && BuilderOk(job, s, s.builders[b]) && (s.builders[b].Pruning? || s.builders[b].Removing?)
    ensures BuilderOk(job, Step(job, s, b, pick), Step(job, s, b, pick).builders[b])
  {
    StepKeepsOk(job, s, b, pick, s.builders[b]);
  }

  lemma StepBuilder(job: Job, s: System, b: nat, pick: Name, c: nat)
    requires b < |s.builders| && c < |s.builders|
             && BuilderOk(job, s, s.builders[b]) && BuilderOk(job, s, s.builders[c])
    ensures BuilderOk(job, Step(job, s, b, pick), Step(job, s, b, pick).builders[c])
  {
    if c != b {
      StepKeepsOk(job, s, b, pick, s.builders[c]);
    } else if s.builders[b].Pruning? || s.builders[b].Removing? {
      PrunerStaysOk(job, s, b, pick);
    } else {
      WriterStaysOk(job, s, b, pick);
    }
  }

  // ---- staging directories ----

  lemma StepStaging(job: Job, s: System, b: nat, pick: Name, n: Name)
    requires b < |s.builders| && StagingOk(s, n)
    requires BuilderOk(job, s, s.builders[b])
    ensures StagingOk(Step(job, s, b, pick), n)
  {
  }

  /**
   A removal can only doom others, a failing removal leaves the writer that filled the
   directory behind, and a failing write was doomed before: some build stays sound.
   */
  lemma StepSound(job: Job, s: System, b: nat, pick: Name, a: nat)
    requires b < |s.builders| && a < |s.builders| && Sound(s, a) && forall n :: StagingOk(s, n)
    requires BuilderOk(job, s, s.builders[b])
    ensures SomeSound(Step(job, s, b, pick))
  {
    var s' := Step(job, s, b, pick);
    if !s'.builders[b].Failing? && !s'.builders[b].Failed? {
      assert Sound(s', b);
    } else if s.builders[b].Removing? {
      var d := s.builders[b].target;
      assert StagingOk(s, d);
      assert Sound(s', d.builder);
    } else {
      assert Sound(s', a);
    }
  }

  lemma StepInv(job: Job, s: System, b: nat, pick: Name)
    requires Inv(job, s) && b < |s.builders|
    ensures Inv(job, Step(job, s, b, pick))
  {
    var s' := Step(job, s, b, pick);
    assert BuilderOk(job, s, s.builders[b]);
    forall c | 0 <= c < |s'.builders| ensures BuilderOk(job, s', s'.builders[c]) {
      StepBuilder(job, s, b, pick, c);
    }
    forall n ensures StagingOk(s', n) {
      StepStaging(job, s, b, pick, n);
    }
    var a :| 0 <= a < |s.builders| && Sound(s, a);
    StepSound(job, s, b, pick, a);
  }

  lemma MovedInv(job: Job, s: System, move: Move)
    requires Inv(job, s)
    ensures Inv(job, Moved(job, s, move))
  {
    if move.0 < |s.builders| {
      StepInv(job, s, move.0, move.1);
    }
  }

  /** The invariant holds after every interleaving of any number of builds. */
  lemma {:induction false} RunInv(job: Job, s: System, moves: seq<Move>)
    requires Inv(job, s)
    ensures Inv(job, Run(job, s, moves))
    decreases |moves|
  {
    if moves != [] {
      MovedInv(job, s, moves[0]);
      RunInv(job, Moved(job, s, moves[0]), moves[1..]);
    }
  }

  lemma StartInv(job: Job, dir: map<Name, Content>)
    requires Fresh(dir)
    ensures Inv(job, Start(job, dir))
  {
    var s := Start(job, dir);
    if job.builders > 0 {
      assert Sound(s, 0);
    }
  }

  /** In every later state of every interleaving a wanted file is still there. */
  lemma {:induction false} WantedStays(job: Job, s: System, moves: seq<Move>, w: nat)
    requires Inv(job, s) && w in job.wanted && Detail(w) in s.dir
    ensures var s' := Run(job, s, moves);
            Detail(w) in s'.dir && (s'.dir[Detail(w)] == s.dir[Detail(w)] || s'.dir[Detail(w)] == job.content(w))
    decreases |moves|
  {
    if moves != [] {
      var (b, pick) := moves[0];
      MovedInv(job, s, moves[0]);
      if b < |s.builders| {
        StepKeepsWanted(job, s, b, pick, w);
      }
      WantedStays(job, Moved(job, s, moves[0]), moves[1..], w);
    }
  }

  // ---- convergence ----

  predicate Stopped(p: Phase) {
    p.Done? || p.Failed?
  }

  ghost predicate AllStopped(s: System) {
    forall b :: 0 <= b < |s.builders| ==> Stopped(s.builders[b])
  }

  ghost predicate SomeDone(s: System) {
    exists b :: 0 <= b < |s.builders| && s.builders[b].Done?
  }

  /**
   Convergence: when every build has stopped, at least one has finished, and the
   directory holds exactly the wanted files with the snapshot's content.
   */
  lemma BuildsConverge(job: Job, dir: map<Name, Content>, moves: seq<Move>)
    requires Fresh(dir) && job.builders > 0
    requires AllStopped(Run(job, Start(job, dir), moves))
    ensures var s := Run(job, Start(job, dir), moves);
            && SomeDone(s)
            && s.dir.Keys == WantedNames(job)
            && forall w :: w in job.wanted ==> s.dir[Detail(w)] == job.content(w)
  {
    var s := Run(job, Start(job, dir), moves);
    StartInv(job, dir);
    RunInv(job, Start(job, dir), moves);
    var d :| 0 <= d < |s.builders| && Sound(s, d);
    assert s.builders[d].Done?;
    assert BuilderOk(job, s, s.builders[d]);
    StoppedHolds(job, s);
  }

  lemma StoppedHolds(job: Job, s: System)
    requires AllStopped(s) && (forall n :: StagingOk(s, n)) && BuilderOk(job, s, Done)
    ensures s.dir.Keys == WantedNames(job)
    ensures forall w :: w in job.wanted ==> s.dir[Detail(w)] == job.content(w)
  {
    forall w | w in job.wanted ensures Detail(w) in s.dir && s.dir[Detail(w)] == job.content(w) {
      var i :| 0 <= i < |job.wanted| && job.wanted[i] == w;
      assert Written(job, s, i);
    }
    forall n | n in s.dir ensures n in WantedNames(job) {
      assert StagingOk(s, n);
      assert !Foreign(job, n);
      assert n == Detail(n.netuid);
    }
  }

  // ---- every run stops ----

  /** All names there can ever be in the directory: old entries, wanted files and staging directories. */
  function Names(job: Job, dir: map<Name, Content>): set<Name> {
    dir.Keys + WantedNames(job) + set b, k | 0 <= b < job.builders && 0 <= k < |job.wanted| :: Staging(b, k)
  }

  /** No phase takes up a name outside `names`. */
  predicate Within(p: Phase, names: set<Name>) {
    (p.Pruning? || p.Removing?) ==> p.todo <= names
  }

  ghost predicate AllWithin(job: Job, s: System, names: set<Name>) {
    && Names(job, s.dir) <= names
    && forall b :: 0 <= b < |s.builders| ==> Within(s.builders[b], names)
  }

  /** Actions a phase can still take, at most: four for each file, three for each of `u` names. */
  function Budget(n: nat, u: nat, p: Phase): nat {
    match p
    case Writing(k) => if k <= n then 4 * (n - k) + 3 * u + 5 else 0
    case Created(k) => if k <= n then 4 * (n - k) + 3 * u + 4 else 0
    case Staged(k) => if k <= n then 4 * (n - k) + 3 * u + 3 else 0
    case Renamed(k) => if k <= n then 4 * (n - k) + 3 * u + 2 else 0
    case Failing(_) => 1
    case Pruning(todo) => 3 * |todo| + 1
    case Removing(todo, _, listed) => 3 * |todo| + if listed then 3 else 2
    case _ => 0
  }

  function TotalBudget(n: nat, u: nat, phases: seq<Phase>): nat {
    if phases == [] then 0 else Budget(n, u, phases[0]) + TotalBudget(n, u, phases[1..])
  }

  lemma {:induction false} UpdateBudget(n: nat, u: nat, phases: seq<Phase>, b: nat, p: Phase)
    requires b < |phases|
    ensures TotalBudget(n, u, phases[b := p]) == TotalBudget(n, u, phases) - Budget(n, u, phases[b]) + Budget(n, u, p)
    decreases b
  {
    if b > 0 {
      UpdateBudget(n, u, phases[1..], b - 1, p);
      assert phases[b := p][1..] == phases[1..][b - 1 := p];
    } else {
      assert phases[b := p][1..] == phases[1..];
    }
  }

  lemma StepKeepsWithin(job: Job, s: System, b: nat, pick: Name, names: set<Name>)
    requires Inv(job, s) && b < |s.builders| && AllWithin(job, s, names)
    ensures AllWithin(job, Step(job, s, b, pick), names)
  {
    assert BuilderOk(job, s, s.builders[b]);
    assert Within(s.builders[b], names);
    var s' := Step(job, s, b, pick);
    assert s'.dir.Keys <= Names(job, s.dir);
  }

  /** The phases a writing build can go on in; `listed` is what it would find to prune. */
  predicate CanFollow(n: nat, listed: set<Name>, p: Phase, q: Phase) {
    match p
    case Writing(k) => q == if k < n then Created(k) else Pruning(listed)
    case Created(k) => q == Staged(k) || q == Failing(k)
    case Staged(k) => q == Renamed(k) || q == Failing(k)
    case Renamed(k) => q == Writing(k + 1)
    case Failing(_) => q == Failed
    case _ => false
  }

  lemma WriteStepFollows(job: Job, s: System, b: nat)
    requires b < |s.builders| && !s.builders[b].Pruning? && !s.builders[b].Removing? && !Stopped(s.builders[b])
    ensures CanFollow(|job.wanted|, s.dir.Keys - WantedNames(job), s.builders[b], WriteStep(job, s, b).builders[b])
  {
  }

  predicate InReach(n: nat, p: Phase) {
    match p
    case Writing(k) => k <= n
    case Created(k) => k < n
    case Staged(k) => k < n
    case Renamed(k) => k < n
    case _ => true
  }

  lemma FollowingUsesUp(n: nat, names: set<Name>, listed: set<Name>, p: Phase, q: Phase)
    requires CanFollow(n, listed, p, q) && InReach(n, p) && listed <= names
    ensures Budget(n, |names|, q) < Budget(n, |names|, p)
  {
    SubsetCardinality(listed, names);
  }

  lemma WriterUsesUp(job: Job, s: System, b: nat, names: set<Name>)
    requires b < |s.builders| && BuilderOk(job, s, s.builders[b]) && s.dir.Keys <= names
    requires !s.builders[b].Pruning? && !s.builders[b].Removing? && !Stopped(s.builders[b])
    ensures var n, u := |job.wanted|, |names|;
            Budget(n, u, WriteStep(job, s, b).builders[b]) < Budget(n, u, s.builders[b])
  {
    WriteStepFollows(job, s, b);
    var p, q := s.builders[b], WriteStep(job, s, b).builders[b];
    FollowingUsesUp(|job.wanted|, names, s.dir.Keys - WantedNames(job), p, q);
  }

  lemma PrunerUsesUp(job: Job, s: System, b: nat, pick: Name, names: set<Name>)
    requires b < |s.builders| && (s.builders[b].Pruning? || s.builders[b].Removing?)
    ensures var n, u := |job.wanted|, |names|;
            PruneStep(job, s, b, pick) == s
            || Budget(n, u, PruneStep(job, s, b, pick).builders[b]) < Budget(n, u, s.builders[b])
  {
    if s.builders[b].Pruning? && pick in s.builders[b].todo {
      assert |s.builders[b].todo - {pick}| == |s.builders[b].todo| - 1;
    }
  }

  /** An action that changes anything uses up some of its build's budget. */
  lemma PhaseUsesUp(job: Job, s: System, b: nat, pick: Name, names: set<Name>)
    requires Inv(job, s) && b < |s.builders| && s.dir.Keys <= names && Step(job, s, b, pick) != s
    ensures var n, u := |job.wanted|, |names|;
            Budget(n, u, Step(job, s, b, pick).builders[b]) < Budget(n, u, s.builders[b])
  {
    if s.builders[b].Pruning? || s.builders[b].Removing? {
      PrunerUsesUp(job, s, b, pick, names);
    } else {
      assert BuilderOk(job, s, s.builders[b]);
      WriterUsesUp(job, s, b, names);
    }
  }

  function EffectiveMoves(job: Job, s: System, moves: seq<Move>): nat
    decreases |moves|
  {
    if moves == [] then 0
    else (if Moved(job, s, moves[0]) == s then 0 else 1) + EffectiveMoves(job, Moved(job, s, moves[0]), moves[1..])
  }

  lemma MovedUsesUp(job: Job, s: System, move: Move, names: set<Name>)
    requires Inv(job, s) && AllWithin(job, s, names)
    ensures var s', n, u := Moved(job, s, move), |job.wanted|, |names|;
            && AllWithin(job, s', names)
            && (s' != s ==> TotalBudget(n, u, s'.builders) < TotalBudget(n, u, s.builders))
  {
    if move.0 < |s.builders| && Moved(job, s, move) != s {
      StepKeepsWithin(job, s, move.0, move.1, names);
      PhaseUsesUp(job, s, move.0, move.1, names);
      var p := Moved(job, s, move).builders[move.0];
      assert Moved(job, s, move).builders == s.builders[move.0 := p];
      UpdateBudget(|job.wanted|, |names|, s.builders, move.0, p);
    }
  }

  lemma {:induction false} RunUsesUp(job: Job, s: System, moves: seq<Move>, names: set<Name>)
    requires Inv(job, s) && AllWithin(job, s, names)
    ensures var n, u := |job.wanted|, |names|;
            EffectiveMoves(job, s, moves) + TotalBudget(n, u, Run(job, s, moves).builders)
            <= TotalBudget(n, u, s.builders)
    decreases |moves|
  {
    if moves != [] {
      MovedInv(job, s, moves[0]);
      MovedUsesUp(job, s, moves[0], names);
      RunUsesUp(job, Moved(job, s, moves[0]), moves[1..], names);
    }
  }

  lemma {:induction false} StartBudget(n: nat, u: nat, phases: seq<Phase>)
    requires forall b :: 0 <= b < |phases| ==> phases[b] == Writing(0)
    ensures TotalBudget(n, u, phases) == |phases| * (4 * n + 3 * u + 5)
  {
    if phases != [] {
      StartBudget(n, u, phases[1..]);
      Distribute(|phases|, 4 * n + 3 * u + 5);
    }
  }

  lemma Distribute(a: int, c: int)
    ensures a * c == (a - 1) * c + c
  {
  }

  lemma StartWithin(job: Job, dir: map<Name, Content>)
    ensures AllWithin(job, Start(job, dir), Names(job, dir))
  {
  }

  /** For each build: four actions a file, three a name there may be, and five more. */
  function MoveLimit(job: Job, names: set<Name>): nat {
    job.builders * (4 * |job.wanted| + 3 * |names| + 5)
  }

  lemma StopsWithin(job: Job, s: System, moves: seq<Move>, names: set<Name>)
    requires Inv(job, s) && AllWithin(job, s, names)
    requires forall b :: 0 <= b < |s.builders| ==> s.builders[b] == Writing(0)
    ensures EffectiveMoves(job, s, moves) <= MoveLimit(job, names)
  {
    RunUsesUp(job, s, moves, names);
    StartBudget(|job.wanted|, |names|, s.builders);
  }

  /** No interleaving goes on for ever: job and directory bound the number of actions that change anything. */
  lemma BuildsStop(job: Job, dir: map<Name, Content>, moves: seq<Move>)
    requires Fresh(dir)
    ensures EffectiveMoves(job, Start(job, dir), moves) <= MoveLimit(job, Names(job, dir))
  {
    StartInv(job, dir);
    StartWithin(job, dir);
    StopsWithin(job, Start(job, dir), moves, Names(job, dir));
  }

  /** Nothing more can happen exactly when every build has stopped; so a run that cannot go on has converged. */
  lemma StuckIsStopped(job: Job, s: System)
    requires Inv(job, s)
    ensures (forall move: Move :: Moved(job, s, move) == s) <==> AllStopped(s)
  {
    forall b | 0 <= b < |s.builders| && !Stopped(s.builders[b])
      ensures exists pick :: Moved(job, s, (b, pick)) != s
    {
      var pick := Other("");
      if s.builders[b].Pruning? && s.builders[b].todo != {} {
        pick :| pick in s.builders[b].todo;
      }
      assert Moved(job, s, (b, pick)).builders[b] != s.builders[b];
    }
    if forall move: Move :: Moved(job, s, move) == s {
      forall b | 0 <= b < |s.builders| ensures Stopped(s.builders[b]) {
        assert forall pick :: Moved(job, s, (b, pick)) == s;
      }
    }
  }

  // ---- when a build can fail ----

  /** One build alone never loses a staging directory and never has one to prune. */
  ghost predicate Undisturbed(job: Job, s: System) {
    && Inv(job, s) && |s.builders| == 1 && Sound(s, 0) && !s.builders[0].Removing?
    && (s.builders[0].Pruning? ==> forall n :: n in s.builders[0].todo ==> !n.Staging?)
  }

  lemma {:induction false} SoloNeverFails(job: Job, s: System, moves: seq<Move>)
    requires Undisturbed(job, s)
    ensures Undisturbed(job, Run(job, s, moves))
    decreases |moves|
  {
    if moves != [] {
      MovedInv(job, s, moves[0]);
      SoloStep(job, s, moves[0]);
      SoloNeverFails(job, Moved(job, s, moves[0]), moves[1..]);
    }
  }

  lemma SoloStep(job: Job, s: System, move: Move)
    requires Undisturbed(job, s) && Inv(job, Moved(job, s, move))
    ensures Undisturbed(job, Moved(job, s, move))
  {
    assert BuilderOk(job, s, s.builders[0]);
    if s.builders[0].Writing? {
      forall n | n in s.dir ensures !n.Staging? {
        assert StagingOk(s, n);
      }
    }
  }

  /** With nothing to write no build ever stages, so none has anything to lose. */
  ghost predicate Idle(job: Job, s: System) {
    && Inv(job, s) && job.wanted == []
    && (forall n :: n in s.dir ==> !n.Staging?)
    && forall b :: 0 <= b < |s.builders| ==>
         (s.builders[b] == Writing(0) || s.builders[b].Done?
          || (s.builders[b].Pruning? && forall n :: n in s.builders[b].todo ==> !n.Staging?))
  }

  lemma {:induction false} IdleNeverFails(job: Job, s: System, moves: seq<Move>)
    requires Idle(job, s)
    ensures Idle(job, Run(job, s, moves))
    decreases |moves|
  {
    if moves != [] {
      MovedInv(job, s, moves[0]);
      IdleNeverFails(job, Moved(job, s, moves[0]), moves[1..]);
    }
  }

  lemma {:induction false} RunConcat(job: Job, s: System, first: seq<Move>, second: seq<Move>)
    ensures Run(job, s, first + second) == Run(job, Run(job, s, first), second)
    decreases |first|
  {
    if first == [] {
      assert first + second == second;
    } else {
      assert (first + second)[1..] == first[1..] + second;
      RunConcat(job, Moved(job, s, first[0]), first[1..], second);
    }
  }

  lemma RunOne(job: Job, s: System, move: Move, rest: seq<Move>)
    ensures Run(job, s, [move] + rest) == Run(job, Moved(job, s, move), rest)
  {
    assert ([move] + rest)[1..] == rest;
  }

  /** Builder 1 is at its first write and stays there. */
  predicate Waits(s: System, p: Phase) {
    |s.builders| >= 2 && s.builders[1] == p && Staging(1, 0) in s.dir && (p == Staged(0) <==> Staging(1, 0) in s.filled)
  }

  /** Builder 0 can always write its remaining files while builder 1 keeps its staging directory. */
  lemma {:induction false} WriteRest(job: Job, s: System, k: nat, p: Phase) returns (moves: seq<Move>)
    requires Waits(s, p) && k <= |job.wanted| && s.builders[0] == Writing(k)
    ensures Waits(Run(job, s, moves), p) && Run(job, s, moves).builders[0] == Writing(|job.wanted|)
    decreases |job.wanted| - k
  {
    if k == |job.wanted| {
      moves := [];
    } else {
      var go: Move := (0, Other(""));
      var s1 := Moved(job, s, go);
      var s2 := Moved(job, s1, go);
      var s3 := Moved(job, s2, go);
      var s4 := Moved(job, s3, go);
      assert s4.builders[0] == Writing(k + 1);
      var rest := WriteRest(job, s4, k + 1, p);
      moves := [go] + ([go] + ([go] + ([go] + rest)));
      RunOne(job, s, go, [go] + ([go] + ([go] + rest)));
      RunOne(job, s1, go, [go] + ([go] + rest));
      RunOne(job, s2, go, [go] + rest);
      RunOne(job, s3, go, rest);
    }
  }

  /** Builder 0 up to the removal of builder 1's staging directory, which builder 1 left in phase `p`. */
  lemma ReachRemoval(job: Job, s: System, p: Phase) returns (moves: seq<Move>)
    requires Waits(s, p) && s.builders[0] == Writing(0) && (job.probe ==> p == Staged(0))
    ensures Waits(Run(job, s, moves), p)
    ensures var q := Run(job, s, moves).builders[0];
            q.Removing? && q.target == Staging(1, 0) && q.listed == (p == Staged(0))
  {
    var writes := WriteRest(job, s, 0, p);
    var list: Move, take: Move := (0, Other("")), (0, Staging(1, 0));
    var s1 := Run(job, s, writes);
    var s2 := Moved(job, s1, list);
    var s3 := Moved(job, s2, take);
    assert Staging(1, 0) in s2.builders[0].todo;
    moves := writes + ([list] + ([take] + []));
    RunConcat(job, s, writes, [list] + ([take] + []));
    RunOne(job, s1, list, [take] + []);
    RunOne(job, s2, take, []);
  }

  /** One interleaving: a prune removes the file another build has staged, and its rename fails. */
  lemma PruneBreaksAnotherBuild(job: Job, dir: map<Name, Content>) returns (moves: seq<Move>)
    requires job.wanted != [] && job.builders >= 2 && Fresh(dir)
    ensures var s := Run(job, Start(job, dir), moves);
            |s.builders| >= 2 && s.builders[1] == Failed
  {
    var write: Move, prune: Move := (1, Other("")), (0, Other(""));
    var s0 := Start(job, dir);
    var s1 := Moved(job, s0, write);
    var s2 := Moved(job, s1, write);
    var before := ReachRemoval(job, s2, Staged(0));
    var s3 := Run(job, s2, before);
    var s4 := Moved(job, s3, prune);
    var s5 := Moved(job, s4, write);
    var s6 := Moved(job, s5, write);
    var after := [prune] + ([write] + ([write] + []));
    moves := [write] + ([write] + (before + after));
    RunOne(job, s0, write, [write] + (before + after));
    RunOne(job, s1, write, before + after);
    RunConcat(job, s2, before, after);
    RunOne(job, s3, prune, [write] + ([write] + []));
    RunOne(job, s4, write, [write] + []);
    RunOne(job, s5, write, []);
  }

  /** Build `b` is about to fail in the removal of a directory. */
  predicate PruneFails(job: Job, s: System, b: nat) {
    b < |s.builders| && s.builders[b].Removing? && Step(job, s, b, Other("")).builders[b].Failed?
  }

  /** Another one: a build writes into its staging directory after it was listed, and its removal fails. */
  lemma WriteBreaksAPrune(job: Job, dir: map<Name, Content>) returns (moves: seq<Move>)
    requires job.wanted != [] && job.builders >= 2 && Fresh(dir) && !job.probe
    ensures PruneFails(job, Run(job, Start(job, dir), moves), 0)
  {
    var write: Move := (1, Other(""));
    var s0 := Start(job, dir);
    var s1 := Moved(job, s0, write);
    var before := ReachRemoval(job, s1, Created(0));
    moves := [write] + (before + ([write] + []));
    RunOne(job, s0, write, before + ([write] + []));
    RunConcat(job, s1, before, [write] + []);
    RunOne(job, Run(job, s1, before), write, []);
  }

  /** The owner of a staging directory has already written into it. */
  predicate Past(p: Phase, k: nat) {
    match p
    case Writing(j) => j > k
    case Created(j) => j > k
    case Staged(j) => j >= k
    case Renamed(j) => j >= k
    case _ => true
  }

  /** A removal that tried first goes on only with a directory that nobody writes into again. */
  ghost predicate Settled(job: Job, s: System, p: Phase) {
    job.probe && p.Removing? ==>
      && p.target.Staging? && p.target.builder < |s.builders| && Past(s.builders[p.target.builder], p.target.write)
      && (p.listed || p.target !in s.filled)
  }

  ghost predicate AllSettled(job: Job, s: System) {
    Inv(job, s) && forall b :: 0 <= b < |s.builders| ==> Settled(job, s, s.builders[b])
  }

  lemma StepSettles(job: Job, s: System, b: nat, pick: Name, p: Phase)
    requires Inv(job, s) && b < |s.builders| && Settled(job, s, p)
    ensures Settled(job, Step(job, s, b, pick), p)
  {
  }

  lemma PickSettles(job: Job, s: System, b: nat, pick: Name)
    requires Inv(job, s) && b < |s.builders| && Settled(job, s, s.builders[b])
    ensures Settled(job, Step(job, s, b, pick), Step(job, s, b, pick).builders[b])
  {
    assert StagingOk(s, pick);
    StepSettles(job, s, b, pick, s.builders[b]);
  }

  lemma MovedSettled(job: Job, s: System, move: Move)
    requires AllSettled(job, s)
    ensures AllSettled(job, Moved(job, s, move))
  {
    MovedInv(job, s, move);
    if move.0 < |s.builders| {
      var s' := Moved(job, s, move);
      forall c | 0 <= c < |s'.builders| ensures Settled(job, s', s'.builders[c]) {
        if c == move.0 {
          PickSettles(job, s, c, move.1);
        } else {
          StepSettles(job, s, move.0, move.1, s.builders[c]);
        }
      }
    }
  }

  lemma {:induction false} RunSettled(job: Job, s: System, moves: seq<Move>)
    requires AllSettled(job, s)
    ensures AllSettled(job, Run(job, s, moves))
    decreases |moves|
  {
    if moves != [] {
      MovedSettled(job, s, moves[0]);
      RunSettled(job, Moved(job, s, moves[0]), moves[1..]);
    }
  }

  predicate SomeFailed(s: System) {
    exists b :: 0 <= b < |s.builders| && s.builders[b].Failed?
  }

  ghost predicate CanFail(job: Job, dir: map<Name, Content>) {
    exists moves: seq<Move> :: SomeFailed(Run(job, Start(job, dir), moves))
  }

  /** Some interleaving makes a build fail exactly when two builds run and there is something to write. */
  lemma BuildCanFail(job: Job, dir: map<Name, Content>)
    requires Fresh(dir)
    ensures CanFail(job, dir) <==> job.builders >= 2 && job.wanted != []
  {
    StartInv(job, dir);
    if job.builders >= 2 && job.wanted != [] {
      var moves := PruneBreaksAnotherBuild(job, dir);
      assert SomeFailed(Run(job, Start(job, dir), moves));
    } else {
      forall moves: seq<Move> ensures !SomeFailed(Run(job, Start(job, dir), moves)) {
        RunInv(job, Start(job, dir), moves);
        if job.wanted == [] {
          IdleNeverFails(job, Start(job, dir), moves);
        } else if job.builders == 1 {
          SoloNeverFails(job, Start(job, dir), moves);
        }
      }
    }
  }

  ghost predicate PruneCanFail(job: Job, dir: map<Name, Content>) {
    exists moves: seq<Move>, b: nat :: PruneFails(job, Run(job, Start(job, dir), moves), b)
  }

  /** A prune itself can fail exactly when, besides, removal lists the directory before it tries to remove it. */
  lemma PruneCanFailExactly(job: Job, dir: map<Name, Content>)
    requires Fresh(dir)
    ensures PruneCanFail(job, dir) <==> CanFail(job, dir) && !job.probe
  {
    BuildCanFail(job, dir);
    if CanFail(job, dir) && !job.probe {
      var moves := WriteBreaksAPrune(job, dir);
      assert PruneFails(job, Run(job, Start(job, dir), moves), 0);
    }
    forall moves: seq<Move>, b: nat | PruneFails(job, Run(job, Start(job, dir), moves), b)
      ensures CanFail(job, dir) && !job.probe
    {
      StartInv(job, dir);
      RunSettled(job, Start(job, dir), moves);
      assert Settled(job, Run(job, Start(job, dir), moves), Run(job, Start(job, dir), moves).builders[b]);
      var more := moves + ([(b, Other(""))] + []);
      RunConcat(job, Start(job, dir), moves, [(b, Other(""))] + []);
      RunOne(job, Run(job, Start(job, dir), moves), (b, Other("")), []);
      assert SomeFailed(Run(job, Start(job, dir), more));
    }
  }
}
