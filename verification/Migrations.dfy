/**
 The schema migration runner: one container's apply loop, and any number of
 containers racing on one database behind an advisory lock.
 */
module Migrations {
  import opened Options

  /** The files not recorded yet, in file-name order. */
  function Pending(files: seq<string>, recorded: set<string>): seq<string> {
    if files == [] then []
    else (if files[0] in recorded then [] else [files[0]]) + Pending(files[1..], recorded)
  }

  function SetOf(files: seq<string>): set<string> { set f | f in files }

  predicate Distinct(files: seq<string>) { forall i, j :: 0 <= i < j < |files| ==> files[i] != files[j] }

  lemma {:induction false} PendingHolds(files: seq<string>, recorded: set<string>)
    ensures forall f :: f in Pending(files, recorded) <==> f in files && f !in recorded
    ensures Distinct(files) ==> Distinct(Pending(files, recorded))
  {
    if files != [] {
      var p := Pending(files[1..], recorded);
      PendingHolds(files[1..], recorded);
      assert forall f :: f in files <==> f == files[0] || f in files[1..];
      if Distinct(files) {
        assert forall i, j :: 0 <= i < j < |files[1..]| ==>
            files[1..][i] == files[i + 1] && files[1..][j] == files[j + 1];
        assert forall i :: 0 <= i < |p| ==> p[i] in p;
        assert files[0] !in files[1..];
      }
    }
  }

  /** The pending files keep the order of their names. */
  lemma {:induction false} PendingKeepsOrder(files: seq<string>, recorded: set<string>, i: nat, j: nat)
    returns (a: nat, b: nat)
    requires i < j < |Pending(files, recorded)|
    ensures a < b < |files| && files[a] == Pending(files, recorded)[i] && files[b] == Pending(files, recorded)[j]
  {
    var p := Pending(files[1..], recorded);
    if files[0] in recorded {
      a, b := PendingKeepsOrder(files[1..], recorded, i, j);
      a, b := a + 1, b + 1;
    } else if i > 0 {
      a, b := PendingKeepsOrder(files[1..], recorded, i - 1, j - 1);
      a, b := a + 1, b + 1;
    } else {
      PendingHolds(files[1..], recorded);
      assert p[j - 1] in p;
      b :| 0 <= b < |files[1..]| && files[1..][b] == p[j - 1];
      a, b := 0, b + 1;
    }
  }

  lemma Slices(x: string, q: seq<string>, k: nat)
    requires 1 <= k <= |q| + 1
    ensures ([x] + q)[..k] == [x] + q[..k - 1] && ([x] + q)[k..] == q[k - 1..]
  {
  }

  lemma SetOfCons(x: string, q: seq<string>, recorded: set<string>)
    ensures recorded + SetOf([x] + q) == recorded + SetOf(q) + {x}
  {
  }

  lemma DistinctTail(files: seq<string>)
    requires files != [] && Distinct(files)
    ensures Distinct(files[1..]) && files[0] !in files[1..]
  {
    var rest := files[1..];
    assert forall i :: 0 <= i < |rest| ==> rest[i] == files[i + 1];
  }

  /** Recording the first file takes it off the list and leaves the rest. */
  lemma FirstRecorded(files: seq<string>, recorded: set<string>)
    requires files != [] && Distinct(files)
    ensures Pending(files, recorded + {files[0]}) == Pending(files[1..], recorded)
  {
    DistinctTail(files);
    SkipAbsent(files[1..], recorded, files[0]);
    assert [] + Pending(files[1..], recorded) == Pending(files[1..], recorded);
  }

  /** What is left once the first k pending files are recorded. */
  lemma {:induction false} PendingShrinks(files: seq<string>, recorded: set<string>, k: nat)
    requires Distinct(files) && k <= |Pending(files, recorded)|
    ensures Pending(files, recorded + SetOf(Pending(files, recorded)[..k])) == Pending(files, recorded)[k..]
  {
    var p := Pending(files, recorded);
    if k == 0 {
      assert p[..0] == [] && recorded + SetOf([]) == recorded;
    } else {
      var q := Pending(files[1..], recorded);
      DistinctTail(files);
      if files[0] in recorded {
        assert p == q;
        PendingShrinks(files[1..], recorded, k);
      } else {
        Slices(files[0], q, k);
        PendingShrinks(files[1..], recorded, k - 1);
        SetOfCons(files[0], q[..k - 1], recorded);
        FirstRecorded(files, recorded + SetOf(q[..k - 1]));
      }
    }
  }

  lemma {:induction false} SkipAbsent(files: seq<string>, recorded: set<string>, f: string)
    requires f !in files
    ensures Pending(files, recorded + {f}) == Pending(files, recorded)
  {
    if files != [] { SkipAbsent(files[1..], recorded, f); }
  }

  // ---- one container ---------------------------------------------------------------------

  /** Index of the first file whose SQL fails, or the number of files. */
  function FirstFailing(files: seq<string>, fails: set<string>): (k: nat)
    ensures k <= |files|
  {
    if files == [] || files[0] in fails then 0 else 1 + FirstFailing(files[1..], fails)
  }

  lemma {:induction false} FirstFailingIs(files: seq<string>, fails: set<string>, k: nat)
    requires k <= |files| && forall i :: 0 <= i < k ==> files[i] !in fails
    requires k < |files| ==> files[k] in fails
    ensures FirstFailing(files, fails) == k
  {
    if k > 0 {
      assert forall i :: 0 <= i < |files[1..]| ==> files[1..][i] == files[i + 1];
      FirstFailingIs(files[1..], fails, k - 1);
    }
  }

  class Schema {
    var recorded: set<string>
    var ran: seq<string>          // files executed, in order

    constructor ()
      ensures recorded == {} && ran == []
    {
      recorded, ran := {}, [];
    }

    /** Run and record these files one by one, until one fails. */
    method ApplyLoop(pending: seq<string>, fails: set<string>) returns (ok: bool)
      modifies this
      ensures var k := FirstFailing(pending, fails);
              ran == old(ran) + pending[..k] && recorded == old(recorded) + SetOf(pending[..k])
                  && (ok <==> k == |pending|)
    {
      var i := 0;
      assert pending[..0] == [];
      while i < |pending|
        invariant i <= |pending| && forall j :: 0 <= j < i ==> pending[j] !in fails
        invariant ran == old(ran) + pending[..i] && recorded == old(recorded) + SetOf(pending[..i])
      {
        var f := pending[i];
        if f in fails {
          FirstFailingIs(pending, fails, i);
          return false;
        }
        OneMore(pending, i);
        ran := ran + [f];
        recorded := recorded + {f};
        i := i + 1;
      }
      FirstFailingIs(pending, fails, i);
      ok := true;
    }

    /** db_init's main, with nobody else around: the pending files run in order,
        each recorded right after it ran, until one fails. */
    method Migrate(files: seq<string>, fails: set<string>) returns (ok: bool)
      modifies this
      ensures var pending := Pending(files, old(recorded)); var k := FirstFailing(pending, fails);
              && ran == old(ran) + pending[..k]
              && recorded == old(recorded) + SetOf(pending[..k])
              && (ok <==> k == |pending|)
      ensures ok ==> SetOf(files) <= recorded
    {
      var pending := Pending(files, recorded);
      NothingMissed(files, recorded);
      if pending == [] {
        assert recorded + SetOf([]) == recorded && ran + [] == ran;
        return true;
      }
      pending := Pending(files, recorded);         // again, now holding the lock
      ok := ApplyLoop(pending, fails);
      assert pending[..|pending|] == pending;
    }
  }

  lemma OneMore(files: seq<string>, i: nat)
    requires i < |files|
    ensures files[..i + 1] == files[..i] + [files[i]] && SetOf(files[..i + 1]) == SetOf(files[..i]) + {files[i]}
  {
  }

  lemma NothingMissed(files: seq<string>, recorded: set<string>)
    ensures SetOf(files) <= recorded + SetOf(Pending(files, recorded))
  {
    PendingHolds(files, recorded);
  }

  // ---- any number of containers ---------------------------------------------------------------

  type Container = nat

  datatype Phase =
    | Fresh
    | Waiting                                  // something was pending; wants the lock
    | Locked                                   // has it, has not looked again
    | Applying(left: seq<string>)
    | Executed(file: string, left: seq<string>) // ran, not yet recorded
    | Finished
    | Failed

  datatype State = State(
    recorded: set<string>,
    lock: Option<Container>,
    phases: map<Container, Phase>,
    ran: seq<string>,
    lost: multiset<string>)                    // ran by a container that died before recording

  datatype Step =
    | Connect(c: Container)                    // reads the table, fast path when nothing is pending
    | Acquire(c: Container)
    | Recheck(c: Container)
    | Execute(c: Container)
    | Record(c: Container)
    | Release(c: Container)
    | Fail(c: Container)                       // SQL error or crash; the session's lock goes with it
    | Restart(c: Container)

  function PhaseOf(s: State, c: Container): Phase { if c in s.phases then s.phases[c] else Fresh }

  function SetPhase(s: State, c: Container, p: Phase): State { s.(phases := s.phases[c := p]) }

  predicate InLoop(p: Phase) { p.Locked? || p.Applying? || p.Executed? }

  function DoFail(s: State, c: Container): State {
    var p := PhaseOf(s, c);
    if p.Waiting? then SetPhase(s, c, Failed)
    else if InLoop(p) then
      SetPhase(s.(lock := None, lost := if p.Executed? then s.lost + multiset{p.file} else s.lost), c, Failed)
    else s
  }

  function Apply(files: seq<string>, s: State, step: Step): State {
    var c := step.c;
    var p := PhaseOf(s, c);
    match step
    case Connect(_) =>
      if !p.Fresh? then s
      else SetPhase(s, c, if Pending(files, s.recorded) == [] then Finished else Waiting)
    case Acquire(_) => if p.Waiting? && s.lock.None? then SetPhase(s.(lock := Some(c)), c, Locked) else s
    case Recheck(_) => if p.Locked? then SetPhase(s, c, Applying(Pending(files, s.recorded))) else s
    case Execute(_) =>
      if p.Applying? && p.left != []
          then SetPhase(s.(ran := s.ran + [p.left[0]]), c, Executed(p.left[0], p.left[1..])) else s
    case Record(_) =>
      if p.Executed? then SetPhase(s.(recorded := s.recorded + {p.file}), c, Applying(p.left)) else s
    case Release(_) =>
      if p.Applying? && p.left == [] then SetPhase(s.(lock := None), c, Finished) else s
    case Fail(_) => DoFail(s, c)
    case Restart(_) => if p.Failed? || p.Finished? then SetPhase(s, c, Fresh) else s
  }

  function Run(files: seq<string>, s: State, steps: seq<Step>): State
    decreases |steps|
  {
    if steps == [] then s else Run(files, Apply(files, s, steps[0]), steps[1..])
  }

  function Begin(recorded: set<string>): State { State(recorded, None, map[], [], multiset{}) }

  /** The first k of the initially pending files are recorded. */
  predicate PrefixRecorded(files: seq<string>, initial: set<string>, s: State, k: nat) {
    var pending := Pending(files, initial);
    k <= |pending| && s.recorded == initial + SetOf(pending[..k])
  }

  /** What is executing right now. */
  function InFlight(s: State): multiset<string> {
    if s.lock.Some? && PhaseOf(s, s.lock.value).Executed? then multiset{PhaseOf(s, s.lock.value).file} else multiset{}
  }

  function Executing(s: State): seq<string> {
    if s.lock.Some? && PhaseOf(s, s.lock.value).Executed? then [PhaseOf(s, s.lock.value).file] else []
  }

  /** What the container in the loop, if there is one, still has to do. */
  predicate LoopAgrees(left: seq<string>, p: Phase) {
    match p
    case Applying(l) => l == left
    case Executed(f, l) => [f] + l == left
    case _ => true
  }

  /** Exactly the holder of the lock is in the loop. */
  ghost predicate Exclusive(s: State) {
    forall c: Container :: InLoop(PhaseOf(s, c)) <==> s.lock == Some(c)
  }

  ghost predicate FinishedSawAll(s: State, all: bool) {
    forall c: Container :: PhaseOf(s, c).Finished? ==> all
  }

  ghost predicate Inv(files: seq<string>, initial: set<string>, s: State, k: nat) {
    var pending := Pending(files, initial);
    && Distinct(files)
    && PrefixRecorded(files, initial, s, k)
    && Exclusive(s)
    && (s.lock.Some? ==> LoopAgrees(pending[k..], PhaseOf(s, s.lock.value)))
    && FinishedSawAll(s, k == |pending|)
    && multiset(s.ran) == multiset(pending[..k]) + InFlight(s) + s.lost
    && (s.lost == multiset{} ==> s.ran == pending[..k] + Executing(s))
  }

  /** How many of the pending files are recorded after the step. */
  function Advance(s: State, step: Step, k: nat): nat {
    if step.Record? && PhaseOf(s, step.c).Executed? then k + 1 else k
  }

  lemma PhaseSet(s: State, c: Container, p: Phase)
    ensures forall d: Container :: PhaseOf(SetPhase(s, c, p), d) == if d == c then p else PhaseOf(s, d)
  {
  }

  /** A container outside the loop changes its phase to another one outside. */
  lemma OutsideKeepsInv(files: seq<string>, initial: set<string>, s: State, k: nat, c: Container, p: Phase)
    requires Inv(files, initial, s, k) && !InLoop(PhaseOf(s, c)) && !InLoop(p)
    requires p.Finished? ==> k == |Pending(files, initial)|
    ensures Inv(files, initial, SetPhase(s, c, p), k)
  {
    PhaseSet(s, c, p);
    if s.lock.Some? { assert InLoop(PhaseOf(s, s.lock.value)); }
  }

  lemma AcquireKeepsInv(files: seq<string>, initial: set<string>, s: State, k: nat, c: Container)
    requires Inv(files, initial, s, k) && PhaseOf(s, c).Waiting? && s.lock.None?
    ensures Inv(files, initial, SetPhase(s.(lock := Some(c)), c, Locked), k)
  {
    PhaseSet(s.(lock := Some(c)), c, Locked);
    assert forall d: Container :: PhaseOf(s.(lock := Some(c)), d) == PhaseOf(s, d);
  }

  lemma RecheckKeepsInv(files: seq<string>, initial: set<string>, s: State, k: nat, c: Container)
    requires Inv(files, initial, s, k) && PhaseOf(s, c).Locked?
    ensures Inv(files, initial, SetPhase(s, c, Applying(Pending(files, s.recorded))), k)
  {
    PendingShrinks(files, initial, k);
    assert InLoop(PhaseOf(s, c)) && s.lock == Some(c);
    PhaseSet(s, c, Applying(Pending(files, s.recorded)));
  }

  lemma ExecuteKeepsInv(files: seq<string>, initial: set<string>, s: State, k: nat, c: Container)
    requires Inv(files, initial, s, k) && PhaseOf(s, c).Applying? && PhaseOf(s, c).left != []
    ensures Inv(files, initial, Apply(files, s, Execute(c)), k)
  {
    var l := PhaseOf(s, c).left;
    assert InLoop(PhaseOf(s, c)) && s.lock == Some(c);
    var s1 := s.(ran := s.ran + [l[0]]);
    assert forall d: Container :: PhaseOf(s1, d) == PhaseOf(s, d);
    PhaseSet(s1, c, Executed(l[0], l[1..]));
    assert [l[0]] + l[1..] == l;
  }

  lemma RecordKeepsInv(files: seq<string>, initial: set<string>, s: State, k: nat, c: Container)
    requires Inv(files, initial, s, k) && PhaseOf(s, c).Executed?
    ensures Inv(files, initial, Apply(files, s, Record(c)), k + 1)
  {
    var pending := Pending(files, initial);
    var p := PhaseOf(s, c);
    assert InLoop(p) && s.lock == Some(c);
    assert pending[k..][0] == pending[k] == p.file;
    assert pending[..k + 1] == pending[..k] + [p.file] && pending[k + 1..] == pending[k..][1..] == p.left;
    var s1 := s.(recorded := s.recorded + {p.file});
    assert forall d: Container :: PhaseOf(s1, d) == PhaseOf(s, d);
    PhaseSet(s1, c, Applying(p.left));
  }

  lemma ReleaseKeepsInv(files: seq<string>, initial: set<string>, s: State, k: nat, c: Container)
    requires Inv(files, initial, s, k) && PhaseOf(s, c).Applying? && PhaseOf(s, c).left == []
    ensures Inv(files, initial, Apply(files, s, Release(c)), k)
  {
    assert InLoop(PhaseOf(s, c)) && s.lock == Some(c);
    assert Pending(files, initial)[k..] == [];
    var s1 := s.(lock := None);
    assert forall d: Container :: PhaseOf(s1, d) == PhaseOf(s, d);
    PhaseSet(s1, c, Finished);
  }

  lemma FailKeepsInv(files: seq<string>, initial: set<string>, s: State, k: nat, c: Container)
    requires Inv(files, initial, s, k)
    ensures Inv(files, initial, Apply(files, s, Fail(c)), k)
  {
    var p := PhaseOf(s, c);
    if p.Waiting? {
      OutsideKeepsInv(files, initial, s, k, c, Failed);
    } else if InLoop(p) {
      assert s.lock == Some(c);
      var s1 := s.(lock := None, lost := if p.Executed? then s.lost + multiset{p.file} else s.lost);
      assert forall d: Container :: PhaseOf(s1, d) == PhaseOf(s, d);
      PhaseSet(s1, c, Failed);
    }
  }

  lemma ConnectKeepsInv(files: seq<string>, initial: set<string>, s: State, k: nat, c: Container)
    requires Inv(files, initial, s, k) && PhaseOf(s, c).Fresh?
    ensures Inv(files, initial, Apply(files, s, Connect(c)), k)
  {
    PendingShrinks(files, initial, k);
    OutsideKeepsInv(files, initial, s, k, c, if Pending(files, s.recorded) == [] then Finished else Waiting);
  }

  lemma StepKeepsInv(files: seq<string>, initial: set<string>, s: State, step: Step, k: nat)
    requires Inv(files, initial, s, k)
    ensures Inv(files, initial, Apply(files, s, step), Advance(s, step, k))
  {
    var p := PhaseOf(s, step.c);
    match step
    case Connect(c) => if p.Fresh? { ConnectKeepsInv(files, initial, s, k, c); }
    case Acquire(c) => if p.Waiting? && s.lock.None? { AcquireKeepsInv(files, initial, s, k, c); }
    case Recheck(c) => if p.Locked? { RecheckKeepsInv(files, initial, s, k, c); }
    case Execute(c) => if p.Applying? && p.left != [] { ExecuteKeepsInv(files, initial, s, k, c); }
    case Record(c) => if p.Executed? { RecordKeepsInv(files, initial, s, k, c); }
    case Release(c) => if p.Applying? && p.left == [] { ReleaseKeepsInv(files, initial, s, k, c); }
    case Fail(c) => FailKeepsInv(files, initial, s, k, c);
    case Restart(c) => if p.Failed? || p.Finished? { OutsideKeepsInv(files, initial, s, k, c, Fresh); }
  }

  lemma {:induction false} RunKeepsInv(files: seq<string>, initial: set<string>, s: State, steps: seq<Step>, k: nat)
    returns (k': nat)
    requires Inv(files, initial, s, k)
    ensures Inv(files, initial, Run(files, s, steps), k')
    decreases |steps|
  {
    k' := k;
    if steps != [] {
      StepKeepsInv(files, initial, s, steps[0], k);
      k' := RunKeepsInv(files, initial, Apply(files, s, steps[0]), steps[1..], Advance(s, steps[0], k));
    }
  }

  lemma BeginInv(files: seq<string>, initial: set<string>)
    requires Distinct(files)
    ensures Inv(files, initial, Begin(initial), 0)
  {
    assert Pending(files, initial)[..0] == [] && initial + SetOf([]) == initial;
  }

  /** At every moment, whatever the containers do and whenever they fail or
      restart: what is recorded is what was recorded at first plus a prefix of
      the pending files in order. */
  lemma RecordedIsAPrefix(files: seq<string>, initial: set<string>, steps: seq<Step>)
    requires Distinct(files)
    ensures exists k: nat :: PrefixRecorded(files, initial, Run(files, Begin(initial), steps), k)
  {
    BeginInv(files, initial);
    var k := RunKeepsInv(files, initial, Begin(initial), steps, 0);
    assert PrefixRecorded(files, initial, Run(files, Begin(initial), steps), k);
  }

  /** No two containers are in the apply loop together. */
  lemma OneInTheLoop(files: seq<string>, initial: set<string>, steps: seq<Step>, c: Container, d: Container)
    requires Distinct(files)
    requires InLoop(PhaseOf(Run(files, Begin(initial), steps), c))
        && InLoop(PhaseOf(Run(files, Begin(initial), steps), d))
    ensures c == d
  {
    BeginInv(files, initial);
    var k := RunKeepsInv(files, initial, Begin(initial), steps, 0);
  }

  /** Each file ran once for its record, once if it is running now, and once for
      every container that died between running and recording it; so, unless
      one did, at most once, and exactly once when all is done. */
  lemma EachFileRunsOnce(files: seq<string>, initial: set<string>, steps: seq<Step>, f: string)
    requires Distinct(files)
    ensures var s := Run(files, Begin(initial), steps);
            multiset(s.ran)[f] == (if f in s.recorded && f !in initial then 1 else 0) + InFlight(s)[f] + s.lost[f]
    ensures var s := Run(files, Begin(initial), steps);
            s.lost[f] == 0 ==> multiset(s.ran)[f] <= 1
  {
    BeginInv(files, initial);
    var s := Run(files, Begin(initial), steps);
    var k := RunKeepsInv(files, initial, Begin(initial), steps, 0);
    var pending := Pending(files, initial);
    PendingHolds(files, initial);
    OnceEach(pending[..k], f);
    assert f in s.recorded && f !in initial ==> f in pending[..k];
    assert f in pending[..k] ==> f in pending;
    if f in InFlight(s) {
      assert pending[k..][0] == f;
      assert f !in pending[..k];
    }
  }

  /** As long as nobody died between running a file and recording it, the files
      ran in order, each once: what ran is a prefix of what was pending. */
  lemma FilesRunInOrder(files: seq<string>, initial: set<string>, steps: seq<Step>)
    requires Distinct(files) && Run(files, Begin(initial), steps).lost == multiset{}
    ensures Run(files, Begin(initial), steps).ran <= Pending(files, initial)
  {
    BeginInv(files, initial);
    var s := Run(files, Begin(initial), steps);
    var k := RunKeepsInv(files, initial, Begin(initial), steps, 0);
    var pending := Pending(files, initial);
    if Executing(s) != [] { assert pending[k..][0] == pending[k] && pending[..k + 1] == pending[..k] + [pending[k]]; }
  }

  lemma {:induction false} OnceEach(files: seq<string>, f: string)
    requires Distinct(files)
    ensures multiset(files)[f] == if f in files then 1 else 0
  {
    if files != [] {
      assert files == [files[0]] + files[1..];
      assert forall i :: 0 <= i < |files[1..]| ==> files[1..][i] == files[i + 1];
      OnceEach(files[1..], f);
      if f == files[0] { assert f !in files[1..]; }
    }
  }

  /** A container that finished leaves nothing pending, then and ever after. */
  lemma FinishedMeansAll(files: seq<string>, initial: set<string>, steps: seq<Step>, more: seq<Step>, c: Container)
    requires Distinct(files) && PhaseOf(Run(files, Begin(initial), steps), c).Finished?
    ensures SetOf(files) <= Run(files, Run(files, Begin(initial), steps), more).recorded
  {
    BeginInv(files, initial);
    var s := Run(files, Begin(initial), steps);
    var k := RunKeepsInv(files, initial, Begin(initial), steps, 0);
    var pending := Pending(files, initial);
    PendingHolds(files, initial);
    assert pending[..k] == pending;
    assert SetOf(files) <= s.recorded;
    RecordedGrows(files, s, more);
  }

  lemma {:induction false} RecordedGrows(files: seq<string>, s: State, steps: seq<Step>)
    ensures s.recorded <= Run(files, s, steps).recorded
    decreases |steps|
  {
    if steps != [] { RecordedGrows(files, Apply(files, s, steps[0]), steps[1..]); }
  }

  // ---- one container among others that are quiet ------------------------------------------------

  /** Run and record, n times. */
  function Rounds(c: Container, n: nat): seq<Step> {
    if n == 0 then [] else [Execute(c), Record(c)] + Rounds(c, n - 1)
  }

  lemma RunConcat(files: seq<string>, s: State, a: seq<Step>, b: seq<Step>)
    ensures Run(files, s, a + b) == Run(files, Run(files, s, a), b)
    decreases |a|
  {
    if a == [] {
      assert a + b == b;
    } else {
      assert (a + b)[1..] == a[1..] + b;
      RunConcat(files, Apply(files, s, a[0]), a[1..], b);
    }
  }

  lemma TwoSteps(files: seq<string>, s: State, a: Step, b: Step, rest: seq<Step>)
    ensures Run(files, s, [a, b] + rest) == Run(files, Apply(files, Apply(files, s, a), b), rest)
  {
    RunConcat(files, s, [a, b], rest);
    assert [a, b][1..] == [b] && [b][1..] == [];
    assert Run(files, Apply(files, s, a), [b]) == Run(files, Apply(files, Apply(files, s, a), b), []);
  }

  lemma FirstAndRest(ran: seq<string>, left: seq<string>)
    requires left != []
    ensures (ran + [left[0]]) + left[1..] == ran + left && [left[0]] + left[1..] == left
  {
  }

  lemma OneRound(files: seq<string>, s: State, c: Container, left: seq<string>) returns (s': State)
    requires PhaseOf(s, c) == Applying(left) && left != []
    ensures s' == Apply(files, Apply(files, s, Execute(c)), Record(c))
    ensures s'.ran == s.ran + [left[0]] && s'.recorded == s.recorded + {left[0]}
    ensures s'.lock == s.lock && s'.lost == s.lost && PhaseOf(s', c) == Applying(left[1..])
  {
    s' := Apply(files, Apply(files, s, Execute(c)), Record(c));
  }

  /** In the loop, every round runs and records the next file. */
  lemma {:induction false} RoundsApply(files: seq<string>, s: State, c: Container, left: seq<string>)
    requires PhaseOf(s, c) == Applying(left)
    ensures var s' := Run(files, s, Rounds(c, |left|));
            && s'.ran == s.ran + left && s'.recorded == s.recorded + SetOf(left)
            && s'.lock == s.lock && s'.lost == s.lost && PhaseOf(s', c) == Applying([])
    decreases |left|
  {
    if left == [] {
      assert s.ran + [] == s.ran && s.recorded + SetOf([]) == s.recorded;
    } else {
      var s2 := OneRound(files, s, c, left);
      TwoSteps(files, s, Execute(c), Record(c), Rounds(c, |left| - 1));
      RoundsApply(files, s2, c, left[1..]);
      FirstAndRest(s.ran, left);
      SetOfCons(left[0], left[1..], s.recorded);
    }
  }

  /** One container from start to end, with this many files to run. */
  function Alone(c: Container, n: nat): seq<Step> {
    [Connect(c), Acquire(c)] + ([Recheck(c)] + (Rounds(c, n) + [Release(c)]))
  }

  /** Whatever happened before: a container that connects while nobody holds the
      lock runs what is pending, in order, records it, and finishes; with nothing
      pending it finishes at once. */
  lemma LoneContainerFinishes(files: seq<string>, s: State, c: Container)
    requires PhaseOf(s, c).Fresh? && s.lock.None?
    ensures var pending := Pending(files, s.recorded);
            var s' := Run(files, s, Alone(c, |pending|));
            && s'.ran == s.ran + pending && s'.recorded == s.recorded + SetOf(pending)
            && s'.lock.None? && s'.lost == s.lost && PhaseOf(s', c).Finished?
  {
    var pending := Pending(files, s.recorded);
    var loop := Rounds(c, |pending|);
    var s2 := Apply(files, Apply(files, s, Connect(c)), Acquire(c));
    TwoSteps(files, s, Connect(c), Acquire(c), [Recheck(c)] + (loop + [Release(c)]));
    var s3 := Apply(files, s2, Recheck(c));
    assert ([Recheck(c)] + (loop + [Release(c)]))[1..] == loop + [Release(c)];
    RunConcat(files, s3, loop, [Release(c)]);
    if pending == [] {
      assert s3 == s2 && loop == [];
      assert s.ran + [] == s.ran && s.recorded + SetOf([]) == s.recorded;
    } else {
      RoundsApply(files, s3, c, pending);
    }
    var s4 := Run(files, s3, loop);
    assert Run(files, s4, [Release(c)]) == Run(files, Apply(files, s4, Release(c)), [Release(c)][1..]);
  }

  /** A container that fails in the loop gives up the lock and nothing that was
      recorded; restarted, it runs what is left, and then nothing is pending. */
  lemma CrashIsRepaired(files: seq<string>, initial: set<string>, steps: seq<Step>, c: Container)
    requires Distinct(files) && InLoop(PhaseOf(Run(files, Begin(initial), steps), c))
    ensures var s := Run(files, Begin(initial), steps);
            var s' := Apply(files, Apply(files, s, Fail(c)), Restart(c));
            && s'.lock.None? && s'.recorded == s.recorded && s'.ran == s.ran
            && SetOf(files) <= Run(files, s', Alone(c, |Pending(files, s.recorded)|)).recorded
  {
    BeginInv(files, initial);
    var s := Run(files, Begin(initial), steps);
    var k := RunKeepsInv(files, initial, Begin(initial), steps, 0);
    var s' := Apply(files, Apply(files, s, Fail(c)), Restart(c));
    LoneContainerFinishes(files, s', c);
    NothingMissed(files, s.recorded);
  }
}
