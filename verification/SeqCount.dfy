/** The shared region of the CPU statistics module: its layout and one collection's writes. */
module RegionSpec {
  import opened Words

  const CPU_STAT_SHARED_VERSION := 1
  const CPU_STAT_MAX_CPUS := 256
  const FIELDS := 10

  // Cells of the region other than `seq`, which is kept apart.
  const VERSION := 0
  const CPU_COUNT := 1
  const RESERVED := 2
  const SAMPLE_NS := 3
  const CPUS := 4
  const CELLS := 2564

  type Cells = c: seq<nat> | |c| == CELLS witness seq(CELLS, _ => 0)

  /** Where field `f` of cpus[c] lies. */
  function Cell(c: nat, f: nat): nat {
    CPUS + FIELDS * c + f
  }

  function Zeroed(): Cells {
    seq(CELLS, _ => 0)
  }

  /** The values that one collection reads from the kernel: the time, and ten counters per CPU. */
  datatype Sample = Sample(count: nat, ns: nat, cpus: seq<seq<nat>>)
  {
    ghost predicate Valid() {
      count <= CPU_STAT_MAX_CPUS && |cpus| == count && forall c :: 0 <= c < count ==> |cpus[c]| == FIELDS
    }
  }

  datatype Write = Write(at: nat, value: nat)

  function Header(s: Sample): seq<Write> {
    [Write(VERSION, CPU_STAT_SHARED_VERSION), Write(CPU_COUNT, s.count), Write(SAMPLE_NS, s.ns)]
  }

  /** memset of cpus[c] */
  function Clear(c: nat): (r: seq<Write>)
    ensures |r| == FIELDS
  {
    seq(FIELDS, f requires 0 <= f < FIELDS => Write(Cell(c, f), 0))
  }

  /** The fields of cpus[c] in the order in which they are filled in. */
  function Fill(c: nat, v: seq<nat>): (r: seq<Write>)
    requires |v| == FIELDS
    ensures |r| == FIELDS
  {
    [Write(Cell(c, 0), v[0]), Write(Cell(c, 1), v[1]), Write(Cell(c, 2), v[2]), Write(Cell(c, 5), v[5]),
     Write(Cell(c, 6), v[6]), Write(Cell(c, 7), v[7]), Write(Cell(c, 8), v[8]), Write(Cell(c, 9), v[9]),
     Write(Cell(c, 3), v[3]), Write(Cell(c, 4), v[4])]
  }

  function CpusProgram(s: Sample, n: nat): seq<Write>
    requires s.Valid() && n <= s.count
  {
    if n == 0 then [] else CpusProgram(s, n - 1) + (Clear(n - 1) + Fill(n - 1, s.cpus[n - 1]))
  }

  /** The writes between the two writes of `seq`. */
  function Program(s: Sample): seq<Write>
    requires s.Valid()
  {
    Header(s) + CpusProgram(s, s.count)
  }

  function Run(cells: Cells, prog: seq<Write>): Cells {
    if prog == [] then cells
    else
      var before, w := Run(cells, prog[..|prog| - 1]), prog[|prog| - 1];
      if w.at < CELLS then before[w.at := w.value] else before
  }

  lemma {:induction false} RunAppend(cells: Cells, a: seq<Write>, b: seq<Write>)
    ensures Run(cells, a + b) == Run(Run(cells, a), b)
  {
    if b == [] {
      assert a + b == a;
    } else {
      RunAppend(cells, a, b[..|b| - 1]);
      assert (a + b)[..|a + b| - 1] == a + b[..|b| - 1];
    }
  }

  /** Cells that are not written keep their values; a cell written once has that value. */
  lemma {:induction false} RunAt(cells: Cells, prog: seq<Write>, i: nat)
    requires i < CELLS
    ensures (forall k :: 0 <= k < |prog| ==> prog[k].at != i) ==> Run(cells, prog)[i] == cells[i]
    ensures forall k :: 0 <= k < |prog| && prog[k].at == i && (forall j :: k < j < |prog| ==> prog[j].at != i) ==>
              Run(cells, prog)[i] == prog[k].value
  {
    if prog != [] {
      RunAt(cells, prog[..|prog| - 1], i);
    }
  }

  lemma CellOrder(c: nat, f: nat, n: nat)
    requires c < n && f < FIELDS
    ensures CPUS <= Cell(n - 1, 0) <= Cell(n, 0) && Cell(c, f) < Cell(n, 0)
    ensures if c == n - 1 then Cell(c, f) == Cell(n - 1, 0) + f else Cell(c, f) < Cell(n - 1, 0)
  {
  }

  lemma CpusNext(cells: Cells, s: Sample, n: nat)
    requires s.Valid() && 0 < n <= s.count
    ensures Run(cells, CpusProgram(s, n))
         == Run(Run(cells, CpusProgram(s, n - 1)), Clear(n - 1) + Fill(n - 1, s.cpus[n - 1]))
  {
    hide Run, Clear, Fill;
    RunAppend(cells, CpusProgram(s, n - 1), Clear(n - 1) + Fill(n - 1, s.cpus[n - 1]));
  }

  /** What the first `n` CPUs' part of a collection leaves behind. */
  lemma {:induction false} CpusResult(cells: Cells, s: Sample, n: nat, i: nat)
    requires s.Valid() && n <= s.count && i < CELLS
    ensures i < CPUS || i >= Cell(n, 0) ==> Run(cells, CpusProgram(s, n))[i] == cells[i]
    ensures forall c, f :: 0 <= c < n && 0 <= f < FIELDS && i == Cell(c, f) ==>
              Run(cells, CpusProgram(s, n))[i] == s.cpus[c][f]
  {
    if n > 0 {
      hide Run, Clear, Fill, Cell, CpusProgram;
      CpusResult(cells, s, n - 1, i);
      var mid := Run(cells, CpusProgram(s, n - 1));
      CpusNext(cells, s, n);
      CpuResult(mid, n - 1, s.cpus[n - 1], i);
      forall c, f | 0 <= c < n && 0 <= f < FIELDS && i == Cell(c, f)
        ensures Run(cells, CpusProgram(s, n))[i] == s.cpus[c][f]
      {
        CellOrder(c, f, n);
      }
      CellOrder(n - 1, 0, n);
    }
  }

  lemma CpuResult(cells: Cells, c: nat, v: seq<nat>, i: nat)
    requires |v| == FIELDS && i < CELLS
    ensures i < Cell(c, 0) || i >= Cell(c + 1, 0) ==> Run(cells, Clear(c) + Fill(c, v))[i] == cells[i]
    ensures Cell(c, 0) <= i < Cell(c + 1, 0) ==> Run(cells, Clear(c) + Fill(c, v))[i] == v[i - Cell(c, 0)]
  {
    hide Run;
    RunAppend(cells, Clear(c), Fill(c, v));
    var mid := Run(cells, Clear(c));
    RunAt(cells, Clear(c), i);
    RunAt(mid, Fill(c, v), i);
    if Cell(c, 0) <= i < Cell(c + 1, 0) {
      var f := i - Cell(c, 0);
      var k := if f <= 2 then f else if f <= 4 then f + 5 else f - 2;
      assert Fill(c, v)[k] == Write(i, v[f]);
    }
  }

  /** A completed collection: the header and every counted CPU come from its sample; the rest is untouched. */
  ghost predicate Holds(cells: Cells, s: Sample, before: Cells) {
    && s.Valid()
    && cells[VERSION] == CPU_STAT_SHARED_VERSION && cells[CPU_COUNT] == s.count && cells[SAMPLE_NS] == s.ns
    && (forall c, f :: 0 <= c < s.count && 0 <= f < FIELDS ==> Cell(c, f) < CELLS && cells[Cell(c, f)] == s.cpus[c][f])
    && cells[RESERVED] == before[RESERVED]
    && (forall i :: Cell(s.count, 0) <= i < CELLS ==> cells[i] == before[i])
  }

  lemma ProgramResult(cells: Cells, s: Sample)
    requires s.Valid()
    ensures Holds(Run(cells, Program(s)), s, cells)
  {
    hide Run, CpusProgram;
    var mid := Run(cells, Header(s));
    RunAppend(cells, Header(s), CpusProgram(s, s.count));
    forall i | 0 <= i < CELLS
      ensures i == RESERVED || i >= CPUS ==> mid[i] == cells[i]
      ensures i == VERSION ==> mid[i] == CPU_STAT_SHARED_VERSION
      ensures i == CPU_COUNT ==> mid[i] == s.count
      ensures i == SAMPLE_NS ==> mid[i] == s.ns
    {
      RunAt(cells, Header(s), i);
      assert Header(s)[0] == Write(VERSION, CPU_STAT_SHARED_VERSION);
      assert Header(s)[1] == Write(CPU_COUNT, s.count);
      assert Header(s)[2] == Write(SAMPLE_NS, s.ns);
    }
    forall i | 0 <= i < CELLS
      ensures i < CPUS || i >= Cell(s.count, 0) ==> Run(mid, CpusProgram(s, s.count))[i] == mid[i]
      ensures forall c, f :: 0 <= c < s.count && 0 <= f < FIELDS && i == Cell(c, f) ==>
                Run(mid, CpusProgram(s, s.count))[i] == s.cpus[c][f]
    {
      CpusResult(mid, s, s.count, i);
    }
  }
}

/** The module's life: init, timer ticks and exit as steps that interleave in any order. */
module SeqCount {
  import opened Words
  import opened RegionSpec

  const SEQ_MOD: int := 0x1_0000_0000

  /** A running collect_all_cpu_stats: its local seq_before, its sample, and how many writes it has made. */
  datatype Job = Job(before: nat, sample: Sample, pos: nat)

  /** The region in memory. */
  datatype Region = Region(seqno: nat, cells: Cells)

  /** Where the thread that runs init, and later exit, stands. */
  datatype Pc = Unloaded | Registering | Collecting | Starting | Loaded | Deregistering | Freeing

  datatype Timer = Off | Armed | Firing

  /**
   * `lives` counts allocations of the region, `done` the collections completed since the last one,
   * and snaps[k] is the region's content after k of them.
   */
  datatype State = State(pc: Pc, timer: Timer, region: Option<Region>, initJob: Option<Job>, timerJob: Option<Job>,
                         ghost lives: nat, ghost done: nat, ghost snaps: seq<Cells>, ghost samples: seq<Sample>)

  datatype Actor = InitThread | TimerCallback

  datatype Action =
    | Allocate(ok: bool)          // vmalloc_user and memset
    | Register(ok: bool)          // misc_register, and vfree if it fails
    | Enter(who: Actor, sample: Sample)  // collect_all_cpu_stats reads seq
    | Advance(who: Actor)         // one write of a collection
    | StartTimer                  // hrtimer_start
    | Fire                        // the timer expires and its callback starts
    | CancelTimer                 // hrtimer_cancel, which waits for a running callback
    | Deregister                  // misc_deregister
    | Free                        // vfree

  ghost const START := State(Unloaded, Off, None, None, None, 0, 0, [], [])

  ghost function JobOf(s: State, who: Actor): Option<Job> {
    if who.InitThread? then s.initJob else s.timerJob
  }

  ghost function WithJob(s: State, who: Actor, job: Option<Job>): State {
    if who.InitThread? then s.(initJob := job) else s.(timerJob := job)
  }

  /** The collection has made its first write of `seq` and not yet its last. */
  ghost predicate Active(job: Option<Job>) {
    job.Some? && job.value.pos >= 1
  }

  /** A collection's `pos`-th write has been made: the odd seq, then its program, then the even seq. */
  ghost function Written(r: Region, job: Job): Region
    requires job.sample.Valid()
  {
    var prog := Program(job.sample);
    if job.pos == 0 then r.(seqno := (job.before + 1) % SEQ_MOD)
    else if job.pos <= |prog| then r.(cells := Run(r.cells, [prog[job.pos - 1]]))
    else r.(seqno := (job.before + 2) % SEQ_MOD)
  }

  /** The actor's next code location once its collection is over. */
  ghost function Returned(s: State, who: Actor): State {
    if who.InitThread? then s.(pc := Starting) else s.(timer := Armed)
  }

  /** One step. Nothing but the code's own order and the timer's rules restricts the steps. */
  ghost predicate Next(s: State, a: Action, s': State) {
    match a
    case Allocate(ok) =>
      && s.pc.Unloaded?
      && s' == if ok then s.(pc := Registering, region := Some(Region(0, Zeroed())), lives := s.lives + 1,
                             done := 0, snaps := [Zeroed()], samples := [])
               else s
    case Register(ok) =>
      s.pc.Registering? && s' == if ok then s.(pc := Collecting) else s.(pc := Unloaded, region := None)
    case Enter(who, sample) =>
      && sample.Valid() && JobOf(s, who).None?
      && (if who.InitThread? then s.pc.Collecting? else s.timer.Firing?)
      && s' == if s.region.None? then Returned(s, who)
               else WithJob(s, who, Some(Job(s.region.value.seqno, sample, 0)))
    case Advance(who) =>
      && JobOf(s, who).Some? && JobOf(s, who).value.sample.Valid() && s.region.Some?
      && var job := JobOf(s, who).value;
      var written := s.(region := Some(Written(s.region.value, job)));
      s' == if job.pos <= |Program(job.sample)| then WithJob(written, who, Some(job.(pos := job.pos + 1)))
            else Returned(WithJob(written, who, None), who)
                 .(done := s.done + 1, snaps := s.snaps + [s.region.value.cells], samples := s.samples + [job.sample])
    case StartTimer => s.pc.Starting? && s' == s.(pc := Loaded, timer := Armed)
    case Fire => s.timer.Armed? && s' == s.(timer := Firing)
    case CancelTimer => s.pc.Loaded? && !s.timer.Firing? && s' == s.(pc := Deregistering, timer := Off)
    case Deregister => s.pc.Deregistering? && s' == s.(pc := Freeing)
    case Free => s.pc.Freeing? && s' == s.(pc := Unloaded, region := None)
  }

  /** The value of `seq` after `n` completed collections. */
  function Half(n: nat): nat {
    (2 * n) % SEQ_MOD
  }

  /** The value of `seq` during the collection after that. */
  function Odd(n: nat): nat {
    (2 * n + 1) % SEQ_MOD
  }

  /** A collection under way agrees with the region and with the last snapshot. */
  ghost predicate JobOk(s: State, job: Job) {
    && s.region.Some? && job.sample.Valid() && s.done < |s.snaps|
    && job.before == Half(s.done)
    && job.pos <= |Program(job.sample)| + 1
    && s.region.value.seqno == (if job.pos >= 1 then Odd(s.done) else Half(s.done))
    && s.region.value.cells ==
         Run(s.snaps[s.done], if job.pos >= 1 then Program(job.sample)[..job.pos - 1] else [])
  }

  /** The snapshots are what the completed collections have left behind, one after the other. */
  ghost predicate SnapsOk(s: State) {
    && |s.snaps| == s.done + 1 && |s.samples| == s.done && s.snaps[0] == Zeroed()
    && forall k :: 0 <= k < s.done ==> Holds(s.snaps[k + 1], s.samples[k], s.snaps[k])
  }

  ghost predicate Inv(s: State) {
    && (s.region.Some? <==> !s.pc.Unloaded?)
    && (s.initJob.Some? ==> s.pc.Collecting?)
    && (s.timerJob.Some? ==> s.timer.Firing?)
    && (!s.timer.Off? ==> s.pc.Loaded?)
    && (s.region.Some? ==> SnapsOk(s))
    && (s.initJob.Some? ==> JobOk(s, s.initJob.value))
    && (s.timerJob.Some? ==> JobOk(s, s.timerJob.value))
    && (s.region.Some? && s.initJob.None? && s.timerJob.None? ==>
          s.region.value == Region(Half(s.done), s.snaps[s.done]))
  }

  lemma SeqArithmetic(n: nat)
    ensures (Half(n) + 1) % SEQ_MOD == Odd(n) && (Half(n) + 2) % SEQ_MOD == Half(n + 1)
    ensures Half(n) % 2 == 0 && Odd(n) % 2 == 1 && Half(0) == 0
  {
    var q, r := 2 * n / SEQ_MOD, Half(n);
    assert r == 2 * (n - q * 0x8000_0000);
    assert Odd(n) == r + 1;
  }

  /** Every step of every actor keeps the invariant. */
  lemma StepKeepsInv(s: State, a: Action, s': State)
    requires Inv(s) && Next(s, a, s')
    ensures Inv(s')
  {
    match a
    case Advance(who) => AdvanceKeepsInv(s, who, s');
    case Enter(who, sample) =>
      hide Run, Program, Holds, Half;
      if s.region.Some? {
        assert s.region.value.cells == s.snaps[s.done];
        RunNothing(s.snaps[s.done]);
      }
    case _ =>
      SeqArithmetic(0);
      hide Run, Program, Holds, Half;
  }

  lemma RunNothing(cells: Cells)
    ensures Run(cells, []) == cells
  {
  }

  lemma RunOneMore(cells: Cells, prog: seq<Write>, n: nat)
    requires n < |prog|
    ensures Run(Run(cells, prog[..n]), [prog[n]]) == Run(cells, prog[..n + 1])
  {
    RunAppend(cells, prog[..n], [prog[n]]);
    assert prog[..n + 1] == prog[..n] + [prog[n]];
  }

  lemma AdvanceKeepsInv(s: State, who: Actor, s': State)
    requires Inv(s) && Next(s, Advance(who), s')
    ensures Inv(s')
  {
    hide Run, Program, Holds, SnapsOk, Half, JobOk;
    var job := JobOf(s, who).value;
    if job.pos <= |Program(job.sample)| {
      WriteKeepsJob(s, who, job, s');
    } else {
      LastWrite(s, who, job, s');
    }
  }

  lemma WriteKeepsJob(s: State, who: Actor, job: Job, s': State)
    requires s.region.Some? && JobOk(s, job) && JobOf(s, who) == Some(job) && SnapsOk(s)
    requires Next(s, Advance(who), s') && job.pos <= |Program(job.sample)|
    ensures JobOk(s', job.(pos := job.pos + 1)) && SnapsOk(s')
  {
    hide Program, Holds;
    SeqArithmetic(s.done);
    if job.pos >= 1 {
      RunOneMore(s.snaps[s.done], Program(job.sample), job.pos - 1);
    }
    hide Run;
  }

  lemma LastWrite(s: State, who: Actor, job: Job, s': State)
    requires s.region.Some? && JobOk(s, job) && JobOf(s, who) == Some(job) && SnapsOk(s)
    requires Next(s, Advance(who), s') && job.pos > |Program(job.sample)|
    ensures SnapsOk(s') && s'.region == Some(Region(Half(s'.done), s'.snaps[s'.done]))
  {
    SeqArithmetic(s.done);
    var prog := Program(job.sample);
    assert prog[..|prog|] == prog;
    hide Run, Program, Holds, Half, Odd;
    ProgramResult(s.snaps[s.done], job.sample);
    hide SnapsOk;
    SnapsGrow(s, s', s.region.value.cells, job.sample);
  }

  lemma SnapsGrow(s: State, s': State, cells: Cells, sample: Sample)
    requires SnapsOk(s) && s'.done == s.done + 1 && Holds(cells, sample, s.snaps[s.done])
    requires s'.snaps == s.snaps + [cells] && s'.samples == s.samples + [sample]
    ensures SnapsOk(s')
  {
    hide Holds;
  }

  // ---------------------------------------------------------------------------
  // Whole runs

  ghost predicate IsRun(run: seq<State>) {
    |run| > 0 && run[0] == START && forall i :: 0 <= i < |run| - 1 ==> Steps(run[i], run[i + 1])
  }

  ghost predicate Steps(s: State, s': State) {
    exists a :: Next(s, a, s')
  }

  lemma {:induction false} RunInv(run: seq<State>, i: nat)
    requires IsRun(run) && i < |run|
    ensures Inv(run[i])
  {
    hide Next, JobOk, SnapsOk;
    if i > 0 {
      RunInv(run, i - 1);
      assert Steps(run[i - 1], run[i]);
      var a :| Next(run[i - 1], a, run[i]);
      StepKeepsInv(run[i - 1], a, run[i]);
    }
  }

  /** The number of writes of `seq` since the region was allocated. */
  ghost function Ticks(s: State): nat {
    2 * s.done + if Active(s.initJob) || Active(s.timerJob) then 1 else 0
  }

  /**
   * In every reachable state at most one collection runs, `seq` counts the writes made to it modulo
   * 2^32 and so is odd exactly while a collection is active, and whoever collects has the region.
   */
  lemma OneCollectionAtATime(run: seq<State>, i: nat)
    requires IsRun(run) && i < |run|
    ensures var s := run[i];
            && !(s.initJob.Some? && s.timerJob.Some?)
            && (s.initJob.Some? || s.timerJob.Some? ==> s.region.Some?)
            && (s.region.Some? ==>
                  && s.done < |s.snaps| && s.region.value.seqno == Ticks(s) % SEQ_MOD
                  && (s.region.value.seqno % 2 == 1 <==> Active(s.initJob) || Active(s.timerJob)))
            && (s.region.Some? && !Active(s.initJob) && !Active(s.timerJob) ==>
                  s.region.value == Region((2 * s.done) % SEQ_MOD, s.snaps[s.done]))
  {
    RunInv(run, i);
    IdleOrActive(run[i]);
  }

  lemma IdleOrActive(s: State)
    requires Inv(s)
    ensures s.region.Some? ==>
              && |s.snaps| == s.done + 1
              && s.region.value.seqno == Ticks(s) % SEQ_MOD
              && (s.region.value.seqno % 2 == 1 <==> Active(s.initJob) || Active(s.timerJob))
              && (!Active(s.initJob) && !Active(s.timerJob) ==>
                    s.region.value == Region((2 * s.done) % SEQ_MOD, s.snaps[s.done]))
  {
    if s.region.Some? {
      SeqArithmetic(s.done);
      RunNothing(s.snaps[s.done]);
    }
    hide Run, Program, Holds;
  }

  /** The step that frees the region finds no collection under way. */
  lemma FreedOnlyWhenIdle(run: seq<State>, i: nat)
    requires IsRun(run) && i + 1 < |run| && run[i].region.Some? && run[i + 1].region.None?
    ensures run[i].initJob.None? && run[i].timerJob.None? && run[i].timer.Off?
    ensures run[i + 1].initJob.None? && run[i + 1].timerJob.None?
  {
    hide JobOk, SnapsOk, Written, Program;
    RunInv(run, i);
    RunInv(run, i + 1);
    assert Steps(run[i], run[i + 1]);
  }

  /** Within one life of the region its writes only add up and its snapshots only accumulate. */
  ghost predicate Later(s: State, s': State) {
    Ticks(s) <= Ticks(s') && s.done <= s'.done && s.snaps <= s'.snaps && s.samples <= s'.samples
  }

  lemma StepLater(s: State, s': State)
    requires Inv(s) && Steps(s, s')
    ensures s.lives <= s'.lives
    ensures s.region.None? && s'.region.Some? ==> s.lives < s'.lives
    ensures s.region.Some? && s'.region.Some? ==> s.lives == s'.lives && Later(s, s')
  {
    hide JobOk, SnapsOk, Written, Program;
  }

  lemma {:induction false} LivesGrow(run: seq<State>, i: nat, j: nat)
    requires IsRun(run) && i <= j < |run|
    ensures run[i].lives <= run[j].lives
    ensures run[i].region.None? && run[j].region.Some? ==> run[i].lives < run[j].lives
    decreases j - i
  {
    hide Steps, Inv;
    if i < j {
      RunInv(run, i);
      assert Steps(run[i], run[i + 1]);
      StepLater(run[i], run[i + 1]);
      LivesGrow(run, i + 1, j);
    }
  }

  lemma {:induction false} RunLater(run: seq<State>, i: nat, j: nat)
    requires IsRun(run) && i <= j < |run|
    requires run[i].region.Some? && run[j].region.Some? && run[i].lives == run[j].lives
    ensures Later(run[i], run[j])
    ensures forall k :: i <= k <= j ==> run[k].region.Some? && run[k].lives == run[i].lives
    decreases j - i
  {
    hide Steps, Inv, Ticks;
    if i < j {
      RunInv(run, i);
      assert Steps(run[i], run[i + 1]);
      StepLater(run[i], run[i + 1]);
      LivesGrow(run, i + 1, j);
      RunLater(run, i + 1, j);
    }
  }

  // ---------------------------------------------------------------------------
  // Readers

  /**
   * A reader's copy: it reads `seq` at time `t0`, then cell `i` at time `at[i]`, in any order, then
   * `seq` again at time `t1`. Other actors step in between as they like.
   */
  ghost predicate Read(run: seq<State>, t0: nat, at: seq<nat>, t1: nat) {
    && IsRun(run) && t0 <= t1 < |run| && |at| == CELLS
    && (forall i :: 0 <= i < CELLS ==> t0 <= at[i] <= t1)
    && run[t0].region.Some? && run[t1].region.Some? && run[t0].lives == run[t1].lives
  }

  ghost predicate Accepts(run: seq<State>, t0: nat, t1: nat)
    requires t0 <= t1 < |run| && run[t0].region.Some? && run[t1].region.Some?
  {
    run[t0].region.value.seqno == run[t1].region.value.seqno && run[t1].region.value.seqno % 2 == 0
  }

  /** `seq` has not come round to an old value during the read. */
  ghost predicate NoWrap(run: seq<State>, t0: nat, t1: nat)
    requires t0 <= t1 < |run|
  {
    Ticks(run[t1]) - Ticks(run[t0]) < SEQ_MOD
  }

  /** The copy is the region's content after `k` collections. */
  ghost predicate CopyIs(run: seq<State>, at: seq<nat>, t1: nat, k: nat) {
    && t1 < |run| && |at| == CELLS && k < |run[t1].snaps|
    && forall i :: 0 <= i < CELLS ==>
         at[i] < |run| && run[at[i]].region.Some? && run[at[i]].region.value.cells[i] == run[t1].snaps[k][i]
  }

  /** Snapshot `k` is the zeroed region, or the `k`-th sample and nothing else. */
  ghost predicate IsSnapshot(s: State, k: nat) {
    && k < |s.snaps|
    && if k == 0 then s.snaps[0] == Zeroed()
       else k <= |s.samples| && Holds(s.snaps[k], s.samples[k - 1], s.snaps[k - 1])
  }

  /** An accepted copy is one snapshot: the zeroed region, or what a single completed collection left. */
  lemma AcceptedIsOneSnapshot(run: seq<State>, t0: nat, at: seq<nat>, t1: nat)
    requires Read(run, t0, at, t1) && Accepts(run, t0, t1) && NoWrap(run, t0, t1)
    ensures var k := run[t1].done;
            CopyIs(run, at, t1, k) && IsSnapshot(run[t1], k)
  {
    hide Steps, Inv, IsRun, Holds;
    RunLater(run, t0, t1);
    SameTicks(run, t0, t1);
    RunInv(run, t1);
    InvSnaps(run[t1]);
    forall i | 0 <= i < CELLS
      ensures at[i] < |run| && run[at[i]].region.Some?
      ensures run[at[i]].region.value.cells[i] == run[t1].snaps[run[t1].done][i]
    {
      RunLater(run, t0, at[i]);
      RunLater(run, at[i], t1);
      RunInv(run, at[i]);
      IdleOrActive(run[at[i]]);
    }
  }

  lemma InvSnaps(s: State)
    requires Inv(s) && s.region.Some?
    ensures SnapsOk(s) && IsSnapshot(s, s.done)
  {
  }

  /** Equal even sequence numbers without a wrap: nothing was written in between. */
  lemma SameTicks(run: seq<State>, t0: nat, t1: nat)
    requires IsRun(run) && t0 <= t1 < |run| && run[t0].region.Some? && run[t1].region.Some?
    requires Later(run[t0], run[t1]) && Accepts(run, t0, t1) && NoWrap(run, t0, t1)
    ensures Ticks(run[t0]) == Ticks(run[t1]) && !Active(run[t1].initJob) && !Active(run[t1].timerJob)
  {
    hide Steps, Inv, IsRun;
    RunInv(run, t0);
    RunInv(run, t1);
    IdleOrActive(run[t0]);
    IdleOrActive(run[t1]);
    SameResidue(Ticks(run[t0]), Ticks(run[t1]));
  }

  lemma SameResidue(a: nat, b: nat)
    requires a <= b < a + SEQ_MOD && a % SEQ_MOD == b % SEQ_MOD
    ensures a == b
  {
  }

  /** The worker also checks the header, so it never takes the zeroed region for a sample. */
  lemma WorkerGetsOneSample(run: seq<State>, t0: nat, at: seq<nat>, t1: nat)
    requires Read(run, t0, at, t1) && Accepts(run, t0, t1) && NoWrap(run, t0, t1)
    requires run[at[VERSION]].region.Some? && run[at[VERSION]].region.value.cells[VERSION] == CPU_STAT_SHARED_VERSION
    ensures run[t1].done > 0 && |run[t1].samples| == run[t1].done
    ensures var s := run[t1].samples[run[t1].done - 1];
            && s.Valid()
            && CopyHas(run, at, CPU_COUNT, s.count) && CopyHas(run, at, SAMPLE_NS, s.ns)
            && forall c, f :: 0 <= c < s.count && 0 <= f < FIELDS ==> CopyHas(run, at, Cell(c, f), s.cpus[c][f])
  {
    hide IsRun, Accepts, NoWrap;
    AcceptedIsOneSnapshot(run, t0, at, t1);
    var k := run[t1].done;
    assert run[t1].snaps[k][VERSION] == CPU_STAT_SHARED_VERSION;
    assert Zeroed()[VERSION] != CPU_STAT_SHARED_VERSION;
    RunInv(run, t1);
    InvSnaps(run[t1]);
  }

  ghost predicate CopyHas(run: seq<State>, at: seq<nat>, i: nat, value: nat) {
    && i < CELLS == |at| && at[i] < |run| && run[at[i]].region.Some?
    && run[at[i]].region.value.cells[i] == value
  }
}

/** collect_all_cpu_stats itself, write by write. */
module CpuStatCollector {
  import opened Words
  import opened RegionSpec
  import opened SeqCount

  class SharedRegion {
    var seqno: nat
    const cells: array<nat>
    /** The region's content before the first write and after every write since then. */
    ghost var trace: seq<Region>

    ghost predicate Valid()
      reads this, cells
    {
      cells.Length == CELLS && trace != [] && trace[|trace| - 1] == Now()
    }

    ghost function Now(): Region
      requires cells.Length == CELLS
      reads this, cells
    {
      Region(seqno, cells[..])
    }

    /** The zeroed region that init makes. */
    constructor ()
      ensures Valid() && Now() == Region(0, Zeroed()) && trace == [Now()] && fresh(cells)
    {
      seqno := 0;
      cells := new nat[CELLS](_ => 0);
      trace := [Region(0, Zeroed())];
      new;
      assert cells[..] == Zeroed();
    }

    /** The writes made since the trace was `was` are the first ones of a collection, in order. */
    ghost predicate Writing(was: seq<Region>, job: Job)
      reads this, cells
    {
      && Valid() && job.sample.Valid() && was != [] && was <= trace && |trace| == |was| + job.pos
      && job.before == was[|was| - 1].seqno
      && forall k :: |was| <= k < |trace| ==> trace[k] == Written(trace[k - 1], job.(pos := k - |was|))
    }

    /** WRITE_ONCE of `seq` */
    method SetSeq(v: nat, ghost was: seq<Region>, ghost job: Job)
      requires Writing(was, job) && Region(v, cells[..]) == Written(Now(), job)
      modifies this
      ensures Writing(was, job.(pos := job.pos + 1))
    {
      hide Written, Sample.Valid;
      seqno := v;
      trace := trace + [Now()];
    }

    /** A plain store to one cell. */
    method Set(i: nat, v: nat, ghost was: seq<Region>, ghost job: Job)
      requires Writing(was, job) && 1 <= job.pos <= |Program(job.sample)| && i < CELLS
      requires Program(job.sample)[job.pos - 1] == Write(i, v)
      modifies this, cells
      ensures Writing(was, job.(pos := job.pos + 1))
    {
      hide Sample.Valid, Program;
      ghost var before := cells[..];
      WrittenCell(Now(), job, i, v);
      hide Written;
      cells[i] := v;
      assert cells[..] == before[i := v];
      trace := trace + [Now()];
    }

    /** collect_cpu_stat_raw: clears the CPU's entry, then fills in its counters. */
    method CollectCpuStatRaw(c: nat, dst: seq<nat>, ghost was: seq<Region>, ghost job: Job)
      requires Writing(was, job) && c < job.sample.count && job.sample.cpus[c] == dst && job.pos == 4 + 20 * c
      requires job.sample.Valid()
      modifies this, cells
      ensures Writing(was, job.(pos := 24 + 20 * c))
    {
      assert job == job.(pos := 4 + 20 * c);
      hide Program, Writing;
      for f := 0 to FIELDS
        invariant Writing(was, job.(pos := 4 + 20 * c + f))
      {
        ProgramAt(job.sample, c, f);
        Set(Cell(c, f), 0, was, job.(pos := 4 + 20 * c + f));
      }
      SetFields(c, dst, was, job.(pos := 14 + 20 * c));
    }

    /** The ten counters, in the order of the code. */
    method SetFields(c: nat, dst: seq<nat>, ghost was: seq<Region>, ghost job: Job)
      requires Writing(was, job) && c < job.sample.count && |job.sample.cpus| == job.sample.count
      requires job.sample.cpus[c] == dst && |dst| == FIELDS && job.sample.Valid() && job.pos == 14 + 20 * c
      modifies this, cells
      ensures Writing(was, job.(pos := 24 + 20 * c))
    {
      assert job == job.(pos := 14 + 20 * c);
      hide Program, Writing, Sample.Valid, Cell;
      SetField(c, 0, dst[0], was, job.(pos := 14 + 20 * c), 0);
      SetField(c, 1, dst[1], was, job.(pos := 15 + 20 * c), 1);
      SetField(c, 2, dst[2], was, job.(pos := 16 + 20 * c), 2);
      SetField(c, 5, dst[5], was, job.(pos := 17 + 20 * c), 3);
      SetLaterFields(c, dst, was, job.(pos := 18 + 20 * c));
      SetIdleFields(c, dst, was, job.(pos := 22 + 20 * c));
    }

    /** From the soft interrupts on, without the idle times. */
    method SetLaterFields(c: nat, dst: seq<nat>, ghost was: seq<Region>, ghost job: Job)
      requires Writing(was, job) && c < job.sample.count && |job.sample.cpus| == job.sample.count
      requires job.sample.cpus[c] == dst && |dst| == FIELDS && job.sample.Valid() && job.pos == 18 + 20 * c
      modifies this, cells
      ensures Writing(was, job.(pos := 22 + 20 * c))
    {
      hide Program, Writing, Sample.Valid, Cell;
      SetField(c, 6, dst[6], was, job, 4);
      SetField(c, 7, dst[7], was, job.(pos := 19 + 20 * c), 5);
      SetField(c, 8, dst[8], was, job.(pos := 20 + 20 * c), 6);
      SetField(c, 9, dst[9], was, job.(pos := 21 + 20 * c), 7);
    }

    /** Idle and I/O wait times come last. */
    method SetIdleFields(c: nat, dst: seq<nat>, ghost was: seq<Region>, ghost job: Job)
      requires Writing(was, job) && c < job.sample.count && |job.sample.cpus| == job.sample.count
      requires job.sample.cpus[c] == dst && |dst| == FIELDS && job.sample.Valid() && job.pos == 22 + 20 * c
      modifies this, cells
      ensures Writing(was, job.(pos := 24 + 20 * c))
    {
      hide Program, Writing, Sample.Valid, Cell;
      SetField(c, 3, dst[3], was, job, 8);
      SetField(c, 4, dst[4], was, job.(pos := 23 + 20 * c), 9);
    }

    /** The store to field `f`, which is the `k`-th to be filled in. */
    method SetField(c: nat, f: nat, v: nat, ghost was: seq<Region>, ghost job: Job, ghost k: nat)
      requires job.sample.Valid() && Writing(was, job) && c < job.sample.count && f < FIELDS && k < FIELDS
      requires job.pos == 14 + 20 * c + k && Fill(c, job.sample.cpus[c])[k] == Write(Cell(c, f), v)
      modifies this, cells
      ensures Writing(was, job.(pos := job.pos + 1))
    {
      hide Program, Writing;
      ProgramAt(job.sample, c, 10 + k);
      Set(Cell(c, f), v, was, job);
    }

    /** The header and all CPUs. */
    method CollectData(sample: Sample, ghost was: seq<Region>, ghost job: Job)
      requires sample.Valid() && job.sample == sample && job.pos == 1 && Writing(was, job)
      modifies this, cells
      ensures Writing(was, job.(pos := 4 + 20 * sample.count))
    {
      HeaderAt(sample);
      hide Program, Writing;
      Set(VERSION, CPU_STAT_SHARED_VERSION, was, job);
      Set(CPU_COUNT, sample.count, was, job.(pos := 2));
      Set(SAMPLE_NS, sample.ns, was, job.(pos := 3));
      for cpu := 0 to sample.count
        invariant Writing(was, job.(pos := 4 + 20 * cpu))
      {
        CollectCpuStatRaw(cpu, sample.cpus[cpu], was, job.(pos := 4 + 20 * cpu));
      }
    }

    /**
     * collect_all_cpu_stats, for a region that exists: its writes are exactly the steps of a
     * collection, and leave an even `seq` and the sample behind.
     */
    method CollectAllCpuStats(sample: Sample)
      requires Valid() && sample.Valid()
      modifies this, cells
      ensures Writing(old(trace), Job(old(seqno), sample, |Program(sample)| + 2))
      ensures seqno == (old(seqno) + 2) % SEQ_MOD && Holds(cells[..], sample, old(cells[..]))
    {
      hide Program, Writing, Written, Holds;
      var seqBefore := seqno;
      ghost var was, job := trace, Job(seqno, sample, 0);
      HeaderAt(sample);
      Begins(sample);
      SetSeq((seqBefore + 1) % SEQ_MOD, was, job);
      CollectData(sample, was, job.(pos := 1));
      LastWritten(was, job.(pos := 4 + 20 * sample.count));
      SetSeq((seqBefore + 2) % SEQ_MOD, was, job.(pos := 4 + 20 * sample.count));
      Collected(was, job.(pos := 5 + 20 * sample.count));
    }

    /** The cells after all writes are the program's result. */
    lemma Begins(sample: Sample)
      requires Valid() && sample.Valid()
      ensures var job := Job(seqno, sample, 0);
              Writing(trace, job) && trace != [] && trace[|trace| - 1].cells == cells[..] &&
              Region((seqno + 1) % SEQ_MOD, cells[..]) == Written(Now(), job)
    {
    }

    lemma Collected(was: seq<Region>, job: Job)
      requires Writing(was, job) && job.pos == |Program(job.sample)| + 2
      ensures cells[..] == Run(was[|was| - 1].cells, Program(job.sample))
      ensures Holds(cells[..], job.sample, was[|was| - 1].cells)
      ensures seqno == (job.before + 2) % SEQ_MOD
    {
      TraceRuns(was, job, |Program(job.sample)|);
      assert trace[|trace| - 1] == Written(trace[|trace| - 2], job.(pos := |trace| - 1 - |was|));
      assert Program(job.sample)[..|Program(job.sample)|] == Program(job.sample);
      ProgramResult(was[|was| - 1].cells, job.sample);
    }

    lemma {:induction false} TraceRuns(was: seq<Region>, job: Job, n: nat)
      requires Writing(was, job) && n <= |Program(job.sample)| && n < job.pos
      ensures |was| + n < |trace| && trace[|was| + n].cells == Run(was[|was| - 1].cells, Program(job.sample)[..n])
    {
      hide Program, Run;
      var k := |was| + n;
      assert trace[k] == Written(trace[k - 1], job.(pos := k - |was|));
      if n == 0 {
        RunNothing(was[|was| - 1].cells);
      } else {
        TraceRuns(was, job, n - 1);
        RunOneMore(was[|was| - 1].cells, Program(job.sample), n - 1);
      }
    }

    lemma LastWritten(was: seq<Region>, job: Job)
      requires Writing(was, job) && job.pos == |Program(job.sample)| + 1
      ensures Region((job.before + 2) % SEQ_MOD, cells[..]) == Written(Now(), job)
    {
    }
  }

  lemma HeaderAt(s: Sample)
    requires s.Valid()
    ensures |Program(s)| == 3 + 20 * s.count
    ensures Program(s)[0] == Write(VERSION, CPU_STAT_SHARED_VERSION)
    ensures Program(s)[1] == Write(CPU_COUNT, s.count) && Program(s)[2] == Write(SAMPLE_NS, s.ns)
  {
    hide CpusProgram;
    CpusLength(s, s.count);
  }

  lemma {:induction false} CpusLength(s: Sample, n: nat)
    requires s.Valid() && n <= s.count
    ensures |CpusProgram(s, n)| == 20 * n
  {
    hide Clear, Fill;
    if n > 0 {
      CpusLength(s, n - 1);
    }
  }

  lemma WrittenCell(r: Region, job: Job, i: nat, v: nat)
    requires job.sample.Valid() && 1 <= job.pos <= |Program(job.sample)| && i < CELLS
    requires Program(job.sample)[job.pos - 1] == Write(i, v)
    ensures Written(r, job) == r.(cells := r.cells[i := v])
  {
    hide Program;
    var w := [Write(i, v)];
    assert Run(r.cells, w[..0]) == r.cells;
  }

  /** Where the writes of CPU `c` stand in the program. */
  lemma ProgramAt(s: Sample, c: nat, j: nat)
    requires s.Valid() && c < s.count && j < 20
    ensures |Program(s)| == 3 + 20 * s.count
    ensures Program(s)[3 + 20 * c + j] == (Clear(c) + Fill(c, s.cpus[c]))[j]
  {
    CpusProgramAt(s, s.count, c, j);
  }

  lemma {:induction false} CpusProgramAt(s: Sample, n: nat, c: nat, j: nat)
    requires s.Valid() && n <= s.count && j < 20
    ensures |CpusProgram(s, n)| == 20 * n
    ensures c < n ==> CpusProgram(s, n)[20 * c + j] == (Clear(c) + Fill(c, s.cpus[c]))[j]
  {
    hide Clear, Fill, Cell;
    if n > 0 {
      CpusProgramAt(s, n - 1, c, j);
    }
  }
}
