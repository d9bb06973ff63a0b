/** Publishing the settings file (crates/config-compiler/src/render.rs): any number of compile cycles
    on one settings path, each able to stop at any step, and what the path then holds. A file is
    kept apart from its names: an open file stays open under whatever name it has. */
module Publishing {
  import opened Strings
  import opened Store
  import opened Protocol
  import opened Invariants
  import opened Grouping
  import opened Ucl
  import opened Routing
  import Schema

  ghost predicate PassesSchema(ps: seq<TenantPolicy>) { Schema.Valid(Schema.SettingsSchema(), Schema.RenderDoc(ps)) }

  /** What a cycle renders and what it lets through. */
  datatype Rules = Rules(render: seq<TenantPolicy> -> string, passes: seq<TenantPolicy> -> bool)

  ghost function CompilerRules(): Rules { Rules(RenderUcl, (ps: seq<TenantPolicy>) => PassesSchema(ps)) }

  // ------------------------------------------------------------------------
  // Files and compilers
  // ------------------------------------------------------------------------

  /** Contents by file number, and the files named by the settings path and by `<path>.tmp`. */
  datatype Disk = Disk(files: seq<string>, settings: Option<nat>, temp: Option<nat>)

  predicate DiskOk(d: Disk) {
    && (d.settings.Some? ==> d.settings.value < |d.files|)
    && (d.temp.Some? ==> d.temp.value < |d.files|)
    && (d.settings.Some? && d.temp.Some? ==> d.settings != d.temp)
  }

  /** What a reader of the settings path gets. */
  function Published(d: Disk): Option<string> {
    if d.settings.Some? && d.settings.value < |d.files| then Some(d.files[d.settings.value]) else None
  }

  function Blank(n: nat): string { seq(n, _ => '\0') }

  /** Writing a chunk at an offset; a gap before it reads as zeros. */
  function Overlay(was: string, at: nat, chunk: string): string {
    if chunk == "" then was
    else
      (if at <= |was| then was[..at] else was + Blank(at - |was|)) + chunk +
      (if at + |chunk| <= |was| then was[at + |chunk|..] else "")
  }

  /** Where a cycle stands: `file` is the file it has open, `written` how many characters it has
      written, `index` the position of its list among those put in place. */
  datatype Stage =
    | Idle
    | Loaded(ps: seq<TenantPolicy>)
    | Passed(ps: seq<TenantPolicy>)
    | Writing(ps: seq<TenantPolicy>, file: nat, written: nat)
    | Installed(ps: seq<TenantPolicy>, index: nat)

  datatype Move = Load(ps: seq<TenantPolicy>) | Check | Create | Write(n: nat) | Rename | Audit | Stop

  datatype Turn = Turn(who: nat, move: Move)

  /** The files, the compilers, the lists put in place and those audited. */
  datatype Fleet = Fleet(disk: Disk, stages: seq<Stage>, installed: seq<seq<TenantPolicy>>, audited: seq<nat>, log: seq<Action>)

  function Start(disk: Disk, n: nat): Fleet { Fleet(disk, seq(n, _ => Idle), [], [], []) }

  function To(x: Fleet, i: nat, stage: Stage): Fleet
    requires i < |x.stages|
  {
    x.(stages := x.stages[i := stage])
  }

  /** One step of one compiler. Creating truncates the file that has the temporary name, if any;
      renaming moves whatever file has it, and fails if none has. */
  function Take(r: Rules, x: Fleet, t: Turn): Fleet {
    if t.who >= |x.stages| then x
    else
      var d := x.disk;
      match (t.move, x.stages[t.who])
      case (Stop, _) => To(x, t.who, Idle)
      case (Load(ps), Idle) => To(x, t.who, Loaded(ps))
      case (Check, Loaded(ps)) => To(x, t.who, if r.passes(ps) then Passed(ps) else Idle)
      case (Create, Passed(ps)) =>
        if d.temp.Some? && d.temp.value < |d.files|
        then To(x.(disk := d.(files := d.files[d.temp.value := ""])), t.who, Writing(ps, d.temp.value, 0))
        else To(x.(disk := d.(files := d.files + [""], temp := Some(|d.files|))), t.who, Writing(ps, |d.files|, 0))
      case (Write(n), Writing(ps, f, k)) =>
        if k + n <= |r.render(ps)| && f < |d.files|
        then To(x.(disk := d.(files := d.files[f := Overlay(d.files[f], k, r.render(ps)[k..k + n])])), t.who, Writing(ps, f, k + n))
        else x
      case (Rename, Writing(ps, f, k)) =>
        if k != |r.render(ps)| then x
        else if d.temp.None? then To(x, t.who, Idle)
        else To(x.(disk := d.(settings := d.temp, temp := None), installed := x.installed + [ps]), t.who, Installed(ps, |x.installed|))
      case (Audit, Installed(ps, index)) =>
        To(x.(audited := x.audited + [index], log := x.log + [ConfigCompiled(|ps|, TotalDomains(ps))]), t.who, Idle)
      case _ => x
  }

  function Turns(r: Rules, x: Fleet, ts: seq<Turn>): Fleet {
    if ts == [] then x else Take(r, Turns(r, x, ts[..|ts| - 1]), ts[|ts| - 1])
  }

  /** A compiler creates the temporary file only while no other is between its Create and its
      Rename. */
  predicate Exclusive(x: Fleet, t: Turn) {
    t.who < |x.stages| && t.move.Create? && x.stages[t.who].Passed? ==>
      forall j :: 0 <= j < |x.stages| && j != t.who ==> !x.stages[j].Writing?
  }

  ghost predicate AllExclusive(r: Rules, x: Fleet, ts: seq<Turn>) {
    forall k :: 0 <= k < |ts| ==> Exclusive(Turns(r, x, ts[..k]), ts[k])
  }

  // ------------------------------------------------------------------------
  // What one step keeps
  // ------------------------------------------------------------------------

  predicate StageOk(r: Rules, x: Fleet, stage: Stage) {
    match stage
    case Passed(ps) => r.passes(ps)
    case Writing(ps, f, k) =>
      && r.passes(ps) && k <= |r.render(ps)|
      && x.disk.temp == Some(f) && f < |x.disk.files| && x.disk.files[f] == r.render(ps)[..k]
    case _ => true
  }

  predicate OneWriter(x: Fleet) {
    forall i, j :: 0 <= i < j < |x.stages| ==> !(x.stages[i].Writing? && x.stages[j].Writing?)
  }

  predicate PublishedOk(r: Rules, initial: Disk, x: Fleet) {
    && (forall i :: 0 <= i < |x.installed| ==> r.passes(x.installed[i]))
    && Published(x.disk) == if x.installed == [] then Published(initial) else Some(r.render(x.installed[|x.installed| - 1]))
  }

  predicate FilesOk(r: Rules, initial: Disk, x: Fleet) {
    && DiskOk(x.disk) && OneWriter(x)
    && (forall i :: 0 <= i < |x.stages| ==> StageOk(r, x, x.stages[i]))
    && PublishedOk(r, initial, x)
  }

  lemma WriteExtends(text: string, k: nat, n: nat)
    requires k + n <= |text|
    ensures Overlay(text[..k], k, text[k..k + n]) == text[..k + n]
  {}

  /** Steps that touch no file. */
  predicate OffDisk(m: Move) { !m.Create? && !m.Write? && !m.Rename? }

  lemma OffDiskKeepsFiles(r: Rules, initial: Disk, x: Fleet, t: Turn)
    requires FilesOk(r, initial, x) && OffDisk(t.move)
    ensures FilesOk(r, initial, Take(r, x, t))
  {
    var y := Take(r, x, t);
    assert y.disk == x.disk && y.installed == x.installed;
    forall i | 0 <= i < |y.stages| ensures StageOk(r, y, y.stages[i]) && (y.stages[i].Writing? ==> x.stages[i].Writing?) {
      assert StageOk(r, x, x.stages[i]);
    }
  }

  lemma CreateKeepsFiles(r: Rules, initial: Disk, x: Fleet, t: Turn)
    requires FilesOk(r, initial, x) && t.move.Create? && Exclusive(x, t)
    ensures FilesOk(r, initial, Take(r, x, t))
  {
    var y := Take(r, x, t);
    if t.who < |x.stages| && x.stages[t.who].Passed? {
      assert StageOk(r, x, x.stages[t.who]);
      forall i | 0 <= i < |y.stages| ensures StageOk(r, y, y.stages[i]) {
        assert StageOk(r, x, x.stages[i]);
        assert r.render(x.stages[t.who].ps)[..0] == "";
      }
    }
  }

  lemma WriteKeepsFiles(r: Rules, initial: Disk, x: Fleet, t: Turn)
    requires FilesOk(r, initial, x) && t.move.Write?
    ensures FilesOk(r, initial, Take(r, x, t))
  {
    var y := Take(r, x, t);
    if t.who < |x.stages| && x.stages[t.who].Writing? {
      var (ps, k) := (x.stages[t.who].ps, x.stages[t.who].written);
      assert StageOk(r, x, x.stages[t.who]);
      if k + t.move.n <= |r.render(ps)| { WriteExtends(r.render(ps), k, t.move.n); }
      forall i | 0 <= i < |y.stages| ensures StageOk(r, y, y.stages[i]) { assert StageOk(r, x, x.stages[i]); }
    }
  }

  lemma RenameKeepsFiles(r: Rules, initial: Disk, x: Fleet, t: Turn)
    requires FilesOk(r, initial, x) && t.move.Rename?
    ensures FilesOk(r, initial, Take(r, x, t))
  {
    var y := Take(r, x, t);
    if t.who < |x.stages| && x.stages[t.who].Writing? {
      var text := r.render(x.stages[t.who].ps);
      assert StageOk(r, x, x.stages[t.who]);
      assert text[..|text|] == text;
      forall i | 0 <= i < |y.stages| ensures StageOk(r, y, y.stages[i]) { assert StageOk(r, x, x.stages[i]); }
    }
  }

  lemma TurnKeepsFiles(r: Rules, initial: Disk, x: Fleet, t: Turn)
    requires FilesOk(r, initial, x) && Exclusive(x, t)
    ensures FilesOk(r, initial, Take(r, x, t))
  {
    match t.move
    case Create => CreateKeepsFiles(r, initial, x, t);
    case Write(_) => WriteKeepsFiles(r, initial, x, t);
    case Rename => RenameKeepsFiles(r, initial, x, t);
    case _ => OffDiskKeepsFiles(r, initial, x, t);
  }

  /** Each entry has the figures of a list put in place, and no two are about the same one. */
  predicate EntriesOk(x: Fleet) {
    && |x.audited| == |x.log|
    && (forall i :: 0 <= i < |x.log| ==>
          && x.audited[i] < |x.installed|
          && x.log[i] == ConfigCompiled(|x.installed[x.audited[i]]|, TotalDomains(x.installed[x.audited[i]])))
    && (forall i, j :: 0 <= i < j < |x.log| ==> x.audited[i] != x.audited[j])
  }

  /** A cycle about to audit is about a list that has no entry, and no other cycle is about it. */
  predicate DuesOk(x: Fleet) {
    && (forall i :: 0 <= i < |x.stages| && x.stages[i].Installed? ==> DueOk(x, x.stages[i].ps, x.stages[i].index))
    && (forall i, j :: 0 <= i < j < |x.stages| && x.stages[i].Installed? && x.stages[j].Installed? ==>
          x.stages[i].index != x.stages[j].index)
    && (forall k :: 0 <= k < |x.audited| ==> x.audited[k] < |x.installed|)
  }

  predicate DueOk(x: Fleet, ps: seq<TenantPolicy>, index: nat) {
    index < |x.installed| && x.installed[index] == ps && index !in x.audited
  }

  predicate LogOk(x: Fleet) { EntriesOk(x) && DuesOk(x) }

  lemma TurnKeepsEntries(r: Rules, x: Fleet, t: Turn)
    requires LogOk(x)
    ensures EntriesOk(Take(r, x, t))
  {
    if t.who < |x.stages| && t.move.Audit? && x.stages[t.who].Installed? {
      assert DueOk(x, x.stages[t.who].ps, x.stages[t.who].index);
    }
  }

  /** Outside Audit nothing is audited; what was put in place stays. */
  lemma TurnAddsToLists(r: Rules, x: Fleet, t: Turn)
    ensures var y := Take(r, x, t);
            && x.installed <= y.installed
            && (y.audited == x.audited ||
                (t.who < |x.stages| && x.stages[t.who].Installed? && y.audited == x.audited + [x.stages[t.who].index]))
            && |y.stages| == |x.stages| && (forall i :: 0 <= i < |x.stages| && i != t.who ==> y.stages[i] == x.stages[i])
  {}

  /** Only a Rename makes a cycle due, for the list it puts in place. */
  lemma OwnDue(r: Rules, x: Fleet, t: Turn)
    requires t.who < |x.stages| && Take(r, x, t).stages[t.who].Installed?
    ensures var y := Take(r, x, t);
            && y.audited == x.audited
            && (y == x || (y.installed == x.installed + [y.stages[t.who].ps] && y.stages[t.who].index == |x.installed|))
  {}

  lemma TurnKeepsDues(r: Rules, x: Fleet, t: Turn)
    requires DuesOk(x)
    ensures DuesOk(Take(r, x, t))
  {
    var y := Take(r, x, t);
    TurnAddsToLists(r, x, t);
    if t.who < |x.stages| && y.stages[t.who].Installed? { OwnDue(r, x, t); }
    forall i | 0 <= i < |x.stages| && x.stages[i].Installed? ensures DueOk(x, x.stages[i].ps, x.stages[i].index) {}
    forall i | 0 <= i < |y.stages| && y.stages[i].Installed? ensures DueOk(y, y.stages[i].ps, y.stages[i].index) {
      if i == t.who && y != x { assert |x.installed| !in x.audited; }
    }
  }

  lemma TurnKeepsLog(r: Rules, x: Fleet, t: Turn)
    requires LogOk(x)
    ensures LogOk(Take(r, x, t))
  {
    TurnKeepsEntries(r, x, t);
    TurnKeepsDues(r, x, t);
  }

  // ------------------------------------------------------------------------
  // Every schedule
  // ------------------------------------------------------------------------

  lemma {:induction false} TurnsKeepFiles(r: Rules, initial: Disk, n: nat, ts: seq<Turn>)
    requires DiskOk(initial) && AllExclusive(r, Start(initial, n), ts)
    ensures var x := Turns(r, Start(initial, n), ts); FilesOk(r, initial, x) && LogOk(x)
  {
    if ts != [] {
      var before, x0 := ts[..|ts| - 1], Start(initial, n);
      assert forall k :: 0 <= k < |before| ==> before[..k] == ts[..k] && before[k] == ts[k];
      TurnsKeepFiles(r, initial, n, before);
      TurnKeepsFiles(r, initial, Turns(r, x0, before), ts[|ts| - 1]);
      TurnKeepsLog(r, Turns(r, x0, before), ts[|ts| - 1]);
    }
  }

  /** What is promised of the settings path and of the audit. */
  predicate CrashSafe(r: Rules, initial: Disk, x: Fleet) {
    && (Published(x.disk) == Published(initial) ||
        exists ps :: ps in x.installed && r.passes(ps) && Published(x.disk) == Some(r.render(ps)))
    && LogOk(x)
  }

  /** Any number of compilers, each stopped any number of times at any step: as long as none creates
      the temporary file while another has it open, the settings path always holds its initial
      content or one complete rendering of policies that passed the schema, whatever a stopped
      cycle left behind; and each audit entry is about a rendering put in place before it, no two
      about the same. */
  lemma ExclusiveIsCrashSafe(r: Rules, initial: Disk, n: nat, ts: seq<Turn>)
    requires DiskOk(initial) && AllExclusive(r, Start(initial, n), ts)
    ensures CrashSafe(r, initial, Turns(r, Start(initial, n), ts))
  {
    var x := Turns(r, Start(initial, n), ts);
    TurnsKeepFiles(r, initial, n, ts);
    if x.installed != [] { assert x.installed[|x.installed| - 1] in x.installed; }
  }

  lemma {:induction false} FleetKeepsSize(r: Rules, x: Fleet, ts: seq<Turn>)
    ensures |Turns(r, x, ts).stages| == |x.stages|
  {
    if ts != [] { FleetKeepsSize(r, x, ts[..|ts| - 1]); }
  }

  /** One compiler needs no condition. */
  lemma OutputIsCrashSafe(initial: Disk, ts: seq<Turn>)
    requires DiskOk(initial)
    ensures CrashSafe(CompilerRules(), initial, Turns(CompilerRules(), Start(initial, 1), ts))
  {
    OneIsExclusive(CompilerRules(), initial, ts);
    ExclusiveIsCrashSafe(CompilerRules(), initial, 1, ts);
  }

  lemma OneIsExclusive(r: Rules, initial: Disk, ts: seq<Turn>)
    ensures AllExclusive(r, Start(initial, 1), ts)
  {
    var x := Start(initial, 1);
    forall k | 0 <= k < |ts| ensures Exclusive(Turns(r, x, ts[..k]), ts[k]) { FleetKeepsSize(r, x, ts[..k]); }
  }

  // ------------------------------------------------------------------------
  // Without the condition
  // ------------------------------------------------------------------------

  /** Compiler 1 creates the temporary file after compiler 0 has written `k` characters of it. */
  function Overlap(a: seq<TenantPolicy>, b: seq<TenantPolicy>, k: nat, rest: nat): seq<Turn> {
    [Turn(0, Load(a)), Turn(0, Check), Turn(1, Load(b)), Turn(1, Check)] +
    [Turn(0, Create), Turn(0, Write(k)), Turn(1, Create), Turn(0, Write(rest)), Turn(0, Rename)]
  }

  lemma TurnsSnoc(r: Rules, x: Fleet, ts: seq<Turn>, t: Turn)
    ensures Turns(r, x, ts + [t]) == Take(r, Turns(r, x, ts), t)
  {
    assert (ts + [t])[..|ts|] == ts;
  }

  function Fold<S, E>(f: (S, E) -> S, x: S, es: seq<E>): S {
    if es == [] then x else f(Fold(f, x, es[..|es| - 1]), es[|es| - 1])
  }

  lemma {:induction false} FoldConcat<S, E>(f: (S, E) -> S, x: S, es: seq<E>, fs: seq<E>)
    ensures Fold(f, x, es + fs) == Fold(f, Fold(f, x, es), fs)
  {
    if fs == [] {
      assert es + fs == es;
    } else {
      FoldConcat(f, x, es, fs[..|fs| - 1]);
      assert (es + fs)[..|es + fs| - 1] == es + fs[..|fs| - 1];
    }
  }

  lemma {:induction false} TurnsFold(r: Rules, f: (Fleet, Turn) -> Fleet, x: Fleet, ts: seq<Turn>)
    requires forall y, t :: f(y, t) == Take(r, y, t)
    ensures Turns(r, x, ts) == Fold(f, x, ts)
  {
    if ts != [] { TurnsFold(r, f, x, ts[..|ts| - 1]); }
  }

  lemma TurnsConcat(r: Rules, x: Fleet, ts: seq<Turn>, us: seq<Turn>)
    ensures Turns(r, x, ts + us) == Turns(r, Turns(r, x, ts), us)
  {
    var f := (y: Fleet, t: Turn) => Take(r, y, t);
    TurnsFold(r, f, x, ts + us);
    TurnsFold(r, f, x, ts);
    TurnsFold(r, f, Turns(r, x, ts), us);
    FoldConcat(f, x, ts, us);
  }

  lemma NextTurn(r: Rules, x: Fleet, ts: seq<Turn>, y: Fleet, t: Turn, z: Fleet)
    requires Turns(r, x, ts) == y && Take(r, y, t) == z
    ensures Turns(r, x, ts + [t]) == z
  {
    TurnsSnoc(r, x, ts, t);
  }

  function Pair(d: Disk, s0: Stage, s1: Stage): Fleet { Fleet(d, [s0, s1], [], [], []) }

  lemma BothPass(r: Rules, initial: Disk, a: seq<TenantPolicy>, b: seq<TenantPolicy>)
    requires r.passes(a) && r.passes(b)
    ensures Turns(r, Start(initial, 2), [Turn(0, Load(a)), Turn(0, Check), Turn(1, Load(b)), Turn(1, Check)]) ==
            Pair(initial, Passed(a), Passed(b))
  {
    var x := Start(initial, 2);
    var t0, t1, t2, t3 := Turn(0, Load(a)), Turn(0, Check), Turn(1, Load(b)), Turn(1, Check);
    assert x == Pair(initial, Idle, Idle);
    NextTurn(r, x, [], x, t0, Pair(initial, Loaded(a), Idle));
    NextTurn(r, x, [] + [t0], Pair(initial, Loaded(a), Idle), t1, Pair(initial, Passed(a), Idle));
    NextTurn(r, x, [] + [t0] + [t1], Pair(initial, Passed(a), Idle), t2, Pair(initial, Passed(a), Loaded(b)));
    NextTurn(r, x, [] + [t0] + [t1] + [t2], Pair(initial, Passed(a), Loaded(b)), t3, Pair(initial, Passed(a), Passed(b)));
    assert [] + [t0] + [t1] + [t2] + [t3] == [t0, t1, t2, t3];
  }

  /** The file with the temporary name after a Create. */
  function TempOf(d: Disk): nat { if d.temp.Some? then d.temp.value else |d.files| }

  function Created(d: Disk): Disk
    requires DiskOk(d)
  {
    d.(files := if d.temp.Some? then d.files[d.temp.value := ""] else d.files + [""], temp := Some(TempOf(d)))
  }

  lemma CreateTakes(r: Rules, d: Disk, a: seq<TenantPolicy>, s1: Stage)
    requires DiskOk(d)
    ensures Take(r, Pair(d, Passed(a), s1), Turn(0, Create)) == Pair(Created(d), Writing(a, TempOf(d), 0), s1)
  {
    assert [Passed(a), s1][0 := Writing(a, TempOf(d), 0)] == [Writing(a, TempOf(d), 0), s1];
  }

  lemma FirstCreates(r: Rules, x: Fleet, ts: seq<Turn>, d: Disk, a: seq<TenantPolicy>, s1: Stage)
    requires DiskOk(d) && Turns(r, x, ts) == Pair(d, Passed(a), s1)
    ensures Turns(r, x, ts + [Turn(0, Create)]) == Pair(Created(d), Writing(a, TempOf(d), 0), s1)
  {
    CreateTakes(r, d, a, s1);
    TurnsSnoc(r, x, ts, Turn(0, Create));
  }

  function Wrote(d: Disk, f: nat, k: nat, chunk: string): Disk
    requires f < |d.files|
  {
    d.(files := d.files[f := Overlay(d.files[f], k, chunk)])
  }

  lemma WriteTakesFirst(r: Rules, d: Disk, a: seq<TenantPolicy>, f: nat, k: nat, n: nat, s1: Stage)
    requires f < |d.files| && k + n <= |r.render(a)|
    ensures Take(r, Pair(d, Writing(a, f, k), s1), Turn(0, Write(n))) ==
            Pair(Wrote(d, f, k, r.render(a)[k..k + n]), Writing(a, f, k + n), s1)
  {
    assert [Writing(a, f, k), s1][0 := Writing(a, f, k + n)] == [Writing(a, f, k + n), s1];
  }

  lemma FirstWrites(r: Rules, x: Fleet, ts: seq<Turn>, d: Disk, a: seq<TenantPolicy>, f: nat, k: nat, n: nat, s1: Stage)
    requires f < |d.files| && k + n <= |r.render(a)| && Turns(r, x, ts) == Pair(d, Writing(a, f, k), s1)
    ensures Turns(r, x, ts + [Turn(0, Write(n))]) == Pair(Wrote(d, f, k, r.render(a)[k..k + n]), Writing(a, f, k + n), s1)
  {
    WriteTakesFirst(r, d, a, f, k, n, s1);
    TurnsSnoc(r, x, ts, Turn(0, Write(n)));
  }

  lemma SecondCreates(r: Rules, x: Fleet, ts: seq<Turn>, d: Disk, s0: Stage, b: seq<TenantPolicy>, f: nat)
    requires d.temp == Some(f) && f < |d.files| && Turns(r, x, ts) == Pair(d, s0, Passed(b))
    ensures Turns(r, x, ts + [Turn(1, Create)]) == Pair(d.(files := d.files[f := ""]), s0, Writing(b, f, 0))
  {
    TurnsSnoc(r, x, ts, Turn(1, Create));
  }

  lemma TruncatedAgain(d: Disk, f: nat, k: nat, chunk: string)
    requires f < |d.files| && d.files[f] == ""
    ensures var w := Wrote(d, f, k, chunk); w.(files := w.files[f := ""]) == d
  {
    assert Wrote(d, f, k, chunk).files[f := ""] == d.files;
  }

  /** From the first Create on, with `c` the disk after it. */
  lemma OverlapFrom(r: Rules, x: Fleet, ts: seq<Turn>, c: Disk, f: nat, a: seq<TenantPolicy>, b: seq<TenantPolicy>, k: nat, rest: nat)
    requires c.temp == Some(f) && f < |c.files| && c.files[f] == "" && k + rest == |r.render(a)|
    requires Turns(r, x, ts) == Pair(c, Writing(a, f, 0), Passed(b))
    ensures Turns(r, x, ts + [Turn(0, Write(k))] + [Turn(1, Create)] + [Turn(0, Write(rest))]) ==
            Pair(Wrote(c, f, k, r.render(a)[k..k + rest]), Writing(a, f, k + rest), Writing(b, f, 0))
  {
    var w, us := Wrote(c, f, 0, r.render(a)[0..0 + k]), ts + [Turn(0, Write(k))];
    FirstWrites(r, x, ts, c, a, f, 0, k, Passed(b));
    SecondCreates(r, x, us, w, Writing(a, f, k), b, f);
    TruncatedAgain(c, f, 0, r.render(a)[0..0 + k]);
    FirstWrites(r, x, us + [Turn(1, Create)], c, a, f, k, rest, Writing(b, f, 0));
  }

  lemma CreatedIsEmpty(d: Disk)
    requires DiskOk(d)
    ensures var c, f := Created(d), TempOf(d); c.temp == Some(f) && f < |c.files| && c.files[f] == ""
  {}

  lemma OverlapRuns(r: Rules, d: Disk, a: seq<TenantPolicy>, b: seq<TenantPolicy>, k: nat, rest: nat)
    requires DiskOk(d) && k + rest == |r.render(a)|
    ensures TempOf(d) < |Created(d).files|
    ensures var ts := [] + [Turn(0, Create)] + [Turn(0, Write(k))] + [Turn(1, Create)] + [Turn(0, Write(rest))];
            Turns(r, Pair(d, Passed(a), Passed(b)), ts) ==
            Pair(Wrote(Created(d), TempOf(d), k, r.render(a)[k..k + rest]), Writing(a, TempOf(d), k + rest), Writing(b, TempOf(d), 0))
  {
    var x := Pair(d, Passed(a), Passed(b));
    FirstCreates(r, x, [], d, a, Passed(b));
    CreatedIsEmpty(d);
    OverlapFrom(r, x, [] + [Turn(0, Create)], Created(d), TempOf(d), a, b, k, rest);
  }

  lemma RenamePublishes(r: Rules, x: Fleet, ps: seq<TenantPolicy>, f: nat)
    requires x.stages != [] && x.stages[0] == Writing(ps, f, |r.render(ps)|)
    requires x.disk.temp == Some(f) && f < |x.disk.files|
    ensures Published(Take(r, x, Turn(0, Rename)).disk) == Some(x.disk.files[f])
  {}

  lemma OverlapPublishes(r: Rules, initial: Disk, a: seq<TenantPolicy>, b: seq<TenantPolicy>, k: nat)
    requires DiskOk(initial) && r.passes(a) && r.passes(b) && k <= |r.render(a)|
    ensures Published(Turns(r, Start(initial, 2), Overlap(a, b, k, |r.render(a)| - k)).disk) ==
            Some(Overlay("", k, r.render(a)[k..]))
  {
    var rest := |r.render(a)| - k;
    var work := [] + [Turn(0, Create)] + [Turn(0, Write(k))] + [Turn(1, Create)] + [Turn(0, Write(rest))];
    BothPass(r, initial, a, b);
    OverlapRuns(r, initial, a, b, k, rest);
    CreatedIsEmpty(initial);
    assert r.render(a)[k..k + rest] == r.render(a)[k..];
    RenameAfter(r, Start(initial, 2), [Turn(0, Load(a)), Turn(0, Check), Turn(1, Load(b)), Turn(1, Check)],
                Pair(initial, Passed(a), Passed(b)), work, a, TempOf(initial));
    OverlapFits(a, b, k, rest);
  }

  lemma RenameAfter(r: Rules, x: Fleet, first: seq<Turn>, y: Fleet, work: seq<Turn>, a: seq<TenantPolicy>, f: nat)
    requires Turns(r, x, first) == y
    requires var z := Turns(r, y, work);
             z.stages != [] && z.stages[0] == Writing(a, f, |r.render(a)|) && z.disk.temp == Some(f) && f < |z.disk.files|
    ensures Published(Turns(r, x, first + (work + [Turn(0, Rename)])).disk) == Some(Turns(r, y, work).disk.files[f])
  {
    TurnsConcat(r, x, first, work + [Turn(0, Rename)]);
    TurnsSnoc(r, y, work, Turn(0, Rename));
    RenamePublishes(r, Turns(r, y, work), a, f);
  }

  lemma OverlapFits(a: seq<TenantPolicy>, b: seq<TenantPolicy>, k: nat, rest: nat)
    ensures Overlap(a, b, k, rest) ==
            [Turn(0, Load(a)), Turn(0, Check), Turn(1, Load(b)), Turn(1, Check)] +
            ([] + [Turn(0, Create)] + [Turn(0, Write(k))] + [Turn(1, Create)] + [Turn(0, Write(rest))] + [Turn(0, Rename)])
  {}

  /** What the compiler renders is not empty and does not start with a zero character. */
  lemma RenderingStartsWithHash(ps: seq<TenantPolicy>)
    ensures CompilerRules().render(ps) != "" && CompilerRules().render(ps)[0] == '#'
  {}

  lemma OverlayIsWhole(text: string, k: nat)
    requires k <= |text| && text != "" && text[0] != '\0'
    ensures Overlay("", k, text[k..]) == text <==> k == 0
    ensures k == |text| ==> Overlay("", k, text[k..]) == ""
  {
    if 0 < k < |text| { assert Overlay("", k, text[k..])[0] == '\0'; }
  }

  /** With two compilers on one path and the condition broken: the second truncates what the first
      has written so far, and the first puts the damaged file in place, an empty one if it had
      written everything. It comes out whole exactly if nothing had been written yet. */
  lemma TwoCompilersCanSpoil(r: Rules, initial: Disk, a: seq<TenantPolicy>, b: seq<TenantPolicy>, k: nat)
    requires DiskOk(initial) && r.passes(a) && r.passes(b) && k <= |r.render(a)|
    requires r.render(a) != "" && r.render(a)[0] != '\0'
    ensures var x := Turns(r, Start(initial, 2), Overlap(a, b, k, |r.render(a)| - k));
            && (Published(x.disk) == Some(r.render(a)) <==> k == 0)
            && (k == |r.render(a)| ==> Published(x.disk) == Some(""))
  {
    OverlapPublishes(r, initial, a, b, k);
    OverlayIsWhole(r.render(a), k);
  }

  // ------------------------------------------------------------------------
  // Exactly when a Create is safe
  // ------------------------------------------------------------------------

  /** No rendering is empty or starts with a zero character. */
  ghost predicate Marked(r: Rules) { forall ps :: r.render(ps) != "" && r.render(ps)[0] != '\0' }

  lemma CompilerIsMarked()
    ensures Marked(CompilerRules())
  {
    forall ps ensures CompilerRules().render(ps) != "" && CompilerRules().render(ps)[0] != '\0' { RenderingStartsWithHash(ps); }
  }

  predicate IsCreate(x: Fleet, t: Turn) { t.who < |x.stages| && t.move.Create? && x.stages[t.who].Passed? }

  /** Every other compiler with the file open has written nothing and renders the same text. */
  predicate Harmless(r: Rules, x: Fleet, t: Turn)
    requires IsCreate(x, t)
  {
    forall i :: 0 <= i < |x.stages| && i != t.who && x.stages[i].Writing? ==>
      x.stages[i].written == 0 && r.render(x.stages[i].ps) == r.render(x.stages[t.who].ps)
  }

  /** Whatever follows, as long as its own Creates are exclusive. */
  ghost predicate StaysPublished(r: Rules, initial: Disk, x: Fleet) {
    forall ts :: AllExclusive(r, x, ts) ==> PublishedOk(r, initial, Turns(r, x, ts))
  }

  /** All writers have file `f` open and render `text`, of which the file holds the first `m`
      characters; it has the temporary name, or it is complete and published. */
  predicate Agree(r: Rules, x: Fleet, f: nat, text: string, m: nat) {
    && (forall i :: 0 <= i < |x.stages| && x.stages[i].Writing? ==>
          x.stages[i].file == f && r.render(x.stages[i].ps) == text && r.passes(x.stages[i].ps) && x.stages[i].written <= m)
    && m <= |text| && f < |x.disk.files| && x.disk.files[f] == text[..m]
    && (x.disk.temp == Some(f) || (x.disk.settings == Some(f) && m == |text| && x.disk.temp == None))
  }

  predicate NoWriter(x: Fleet) { forall i :: 0 <= i < |x.stages| ==> !x.stages[i].Writing? }

  ghost predicate WritersAgree(r: Rules, x: Fleet) { NoWriter(x) || exists f, text, m :: Agree(r, x, f, text, m) }

  ghost predicate SharedOk(r: Rules, initial: Disk, x: Fleet) {
    && DiskOk(x.disk) && PublishedOk(r, initial, x) && WritersAgree(r, x)
    && (forall i :: 0 <= i < |x.stages| && x.stages[i].Passed? ==> r.passes(x.stages[i].ps))
  }

  lemma WriteOverAgreed(text: string, m: nat, k: nat, n: nat)
    requires k <= m <= |text| && k + n <= |text|
    ensures Overlay(text[..m], k, text[k..k + n]) == text[..if k + n > m then k + n else m]
  {}

  lemma OffDiskKeepsShared(r: Rules, initial: Disk, x: Fleet, t: Turn)
    requires SharedOk(r, initial, x) && OffDisk(t.move)
    ensures SharedOk(r, initial, Take(r, x, t))
  {
    var y := Take(r, x, t);
    assert y.disk == x.disk && y.installed == x.installed;
    assert forall i :: 0 <= i < |y.stages| && y.stages[i].Writing? ==> x.stages[i] == y.stages[i];
    if !NoWriter(x) {
      var f, text, m :| Agree(r, x, f, text, m);
      assert Agree(r, y, f, text, m);
    }
  }

  lemma CreateKeepsShared(r: Rules, initial: Disk, x: Fleet, t: Turn)
    requires SharedOk(r, initial, x) && IsCreate(x, t) && Exclusive(x, t)
    ensures SharedOk(r, initial, Take(r, x, t))
  {
    var y := Take(r, x, t);
    assert Agree(r, y, y.stages[t.who].file, r.render(x.stages[t.who].ps), 0);
  }

  lemma WriteKeepsShared(r: Rules, initial: Disk, x: Fleet, t: Turn)
    requires SharedOk(r, initial, x) && t.move.Write?
    ensures SharedOk(r, initial, Take(r, x, t))
  {
    var y := Take(r, x, t);
    if y != x {
      var f, text, m :| Agree(r, x, f, text, m);
      var k := x.stages[t.who].written;
      WriteOverAgreed(text, m, k, t.move.n);
      assert Agree(r, y, f, text, if k + t.move.n > m then k + t.move.n else m);
    }
  }

  lemma RenameKeepsShared(r: Rules, initial: Disk, x: Fleet, t: Turn)
    requires SharedOk(r, initial, x) && t.move.Rename?
    ensures SharedOk(r, initial, Take(r, x, t))
  {
    var y := Take(r, x, t);
    if y != x {
      var f, text, m :| Agree(r, x, f, text, m);
      assert text[..|text|] == text;
      assert Agree(r, y, f, text, m);
    }
  }

  lemma TurnKeepsShared(r: Rules, initial: Disk, x: Fleet, t: Turn)
    requires SharedOk(r, initial, x) && Exclusive(x, t)
    ensures SharedOk(r, initial, Take(r, x, t))
  {
    match t.move
    case Create => if IsCreate(x, t) { CreateKeepsShared(r, initial, x, t); }
    case Write(_) => WriteKeepsShared(r, initial, x, t);
    case Rename => RenameKeepsShared(r, initial, x, t);
    case _ => OffDiskKeepsShared(r, initial, x, t);
  }

  lemma {:induction false} TurnsKeepShared(r: Rules, initial: Disk, x: Fleet, ts: seq<Turn>)
    requires SharedOk(r, initial, x) && AllExclusive(r, x, ts)
    ensures SharedOk(r, initial, Turns(r, x, ts))
  {
    if ts != [] {
      var before := ts[..|ts| - 1];
      assert forall k :: 0 <= k < |before| ==> before[..k] == ts[..k] && before[k] == ts[k];
      TurnsKeepShared(r, initial, x, before);
      TurnKeepsShared(r, initial, Turns(r, x, before), ts[|ts| - 1]);
    }
  }

  lemma HarmlessIsShared(r: Rules, initial: Disk, x: Fleet, t: Turn)
    requires FilesOk(r, initial, x) && IsCreate(x, t) && Harmless(r, x, t)
    ensures SharedOk(r, initial, Take(r, x, t))
  {
    var y := Take(r, x, t);
    forall i | 0 <= i < |x.stages| && x.stages[i].Writing? ensures StageOk(r, x, x.stages[i]) {}
    assert StageOk(r, x, x.stages[t.who]);
    forall i | 0 <= i < |x.stages| && x.stages[i].Passed? ensures r.passes(x.stages[i].ps) { assert StageOk(r, x, x.stages[i]); }
    assert Agree(r, y, y.stages[t.who].file, r.render(x.stages[t.who].ps), 0);
  }

  /** Two compilers with file `f` open and the temporary name on it. */
  predicate Both(r: Rules, y: Fleet, i: nat, a: seq<TenantPolicy>, k: nat, j: nat, b: seq<TenantPolicy>, f: nat, content: string) {
    && i < |y.stages| && j < |y.stages| && i != j
    && y.stages[i] == Writing(a, f, k) && k <= |r.render(a)| && y.stages[j] == Writing(b, f, 0)
    && DiskOk(y.disk) && y.disk.temp == Some(f) && f < |y.disk.files| && y.disk.files[f] == content
  }

  lemma TwoTurns(r: Rules, y: Fleet, t: Turn, u: Turn)
    ensures Turns(r, y, [t, u]) == Take(r, Take(r, y, t), u)
  {
    assert [t, u] == [] + [t] + [u];
    TurnsSnoc(r, y, [], t); TurnsSnoc(r, y, [] + [t], u);
  }

  lemma NoCreateIsExclusive(r: Rules, y: Fleet, ts: seq<Turn>)
    requires forall k :: 0 <= k < |ts| ==> !ts[k].move.Create?
    ensures AllExclusive(r, y, ts)
  {}

  /** Compiler `i` finishes and renames: what it put in place. */
  lemma FinishAndRename(r: Rules, y: Fleet, i: nat, a: seq<TenantPolicy>, k: nat, f: nat, content: string)
    requires i < |y.stages| && y.stages[i] == Writing(a, f, k) && k <= |r.render(a)|
    requires y.disk.temp == Some(f) && f < |y.disk.files| && y.disk.files[f] == content
    ensures var ts := [Turn(i, Write(|r.render(a)| - k)), Turn(i, Rename)];
            var z := Turns(r, y, ts);
            && AllExclusive(r, y, ts)
            && z.installed == y.installed + [a] && z.disk.settings == Some(f) && |z.disk.files| == |y.disk.files|
            && z.disk.files[f] == Overlay(content, k, r.render(a)[k..])
            && |z.stages| == |y.stages| && forall j :: 0 <= j < |y.stages| && j != i ==> z.stages[j] == y.stages[j]
  {
    var rest := |r.render(a)| - k;
    TwoTurns(r, y, Turn(i, Write(rest)), Turn(i, Rename));
    NoCreateIsExclusive(r, y, [Turn(i, Write(rest)), Turn(i, Rename)]);
    assert r.render(a)[k..k + rest] == r.render(a)[k..];
    var y1 := Take(r, y, Turn(i, Write(rest)));
    assert y1.stages[i] == Writing(a, f, |r.render(a)|);
  }

  lemma PublishedIs(r: Rules, initial: Disk, z: Fleet, f: nat, a: seq<TenantPolicy>)
    requires z.disk.settings == Some(f) && f < |z.disk.files| && z.installed != [] && z.installed[|z.installed| - 1] == a
    requires PublishedOk(r, initial, z)
    ensures z.disk.files[f] == r.render(a)
  {}

  /** The creator truncated something: the first compiler puts a damaged file in place. */
  lemma TruncationSpoils(r: Rules, initial: Disk, y: Fleet, i: nat, a: seq<TenantPolicy>, k: nat, j: nat, b: seq<TenantPolicy>, f: nat)
    requires Marked(r) && Both(r, y, i, a, k, j, b, f, "") && k > 0
    ensures !StaysPublished(r, initial, y)
  {
    FinishAndRename(r, y, i, a, k, f, "");
    var ts := [Turn(i, Write(|r.render(a)| - k)), Turn(i, Rename)];
    OverlayIsWhole(r.render(a), k);
    if PublishedOk(r, initial, Turns(r, y, ts)) { PublishedIs(r, initial, Turns(r, y, ts), f, a); }
  }

  lemma OverlayOnNothing(text: string)
    ensures Overlay("", 0, text[0..]) == text
  {}

  lemma WriteAllAtOnce(r: Rules, z: Fleet, j: nat, b: seq<TenantPolicy>, f: nat)
    requires j < |z.stages| && z.stages[j] == Writing(b, f, 0) && f < |z.disk.files|
    ensures var z' := Take(r, z, Turn(j, Write(|r.render(b)|)));
            && z'.installed == z.installed && z'.disk.settings == z.disk.settings && |z'.disk.files| == |z.disk.files|
            && z'.disk.files[f] == Overlay(z.disk.files[f], 0, r.render(b))
  {
    assert r.render(b)[0..0 + |r.render(b)|] == r.render(b);
  }

  /** One compiler finishes and renames, then the other writes into the published file. */
  lemma LateWriteLands(r: Rules, y: Fleet, i: nat, a: seq<TenantPolicy>, j: nat, b: seq<TenantPolicy>, f: nat)
    requires i < |y.stages| && j < |y.stages| && i != j
    requires y.stages[i] == Writing(a, f, 0) && y.stages[j] == Writing(b, f, 0)
    requires y.disk.temp == Some(f) && f < |y.disk.files| && y.disk.files[f] == ""
    ensures var ts := [Turn(i, Write(|r.render(a)|)), Turn(i, Rename)] + [Turn(j, Write(|r.render(b)|))];
            var z := Turns(r, y, ts);
            && AllExclusive(r, y, ts)
            && z.installed == y.installed + [a] && z.disk.settings == Some(f) && f < |z.disk.files|
            && z.disk.files[f] == Overlay(r.render(a), 0, r.render(b))
  {
    var ts, u := [Turn(i, Write(|r.render(a)|)), Turn(i, Rename)], Turn(j, Write(|r.render(b)|));
    FinishAndRename(r, y, i, a, 0, f, "");
    TurnsSnoc(r, y, ts, u);
    NoCreateIsExclusive(r, y, ts + [u]);
    OverlayOnNothing(r.render(a));
    WriteAllAtOnce(r, Turns(r, y, ts), j, b, f);
  }

  lemma DifferentTextsSpoil(r: Rules, initial: Disk, y: Fleet, i: nat, a: seq<TenantPolicy>, j: nat, b: seq<TenantPolicy>, f: nat)
    requires i < |y.stages| && j < |y.stages| && i != j
    requires y.stages[i] == Writing(a, f, 0) && y.stages[j] == Writing(b, f, 0)
    requires y.disk.temp == Some(f) && f < |y.disk.files| && y.disk.files[f] == ""
    requires r.render(a) != r.render(b) && |r.render(a)| <= |r.render(b)|
    ensures !StaysPublished(r, initial, y)
  {
    LateWriteLands(r, y, i, a, j, b, f);
    var ts := [Turn(i, Write(|r.render(a)|)), Turn(i, Rename)] + [Turn(j, Write(|r.render(b)|))];
    if PublishedOk(r, initial, Turns(r, y, ts)) { PublishedIs(r, initial, Turns(r, y, ts), f, a); }
  }

  /** For every fleet reached by exclusive Creates, and every Create: the path stays good whatever
      follows, if and only if every other compiler that has the file open has written nothing and
      renders the same text. */
  lemma CreateIsSafeExactly(r: Rules, initial: Disk, x: Fleet, t: Turn)
    requires Marked(r) && FilesOk(r, initial, x) && IsCreate(x, t)
    ensures StaysPublished(r, initial, Take(r, x, t)) <==> Harmless(r, x, t)
  {
    var y := Take(r, x, t);
    if Harmless(r, x, t) {
      HarmlessIsShared(r, initial, x, t);
      forall ts | AllExclusive(r, y, ts) ensures PublishedOk(r, initial, Turns(r, y, ts)) { TurnsKeepShared(r, initial, y, ts); }
    } else {
      var i :| 0 <= i < |x.stages| && i != t.who && x.stages[i].Writing? &&
               !(x.stages[i].written == 0 && r.render(x.stages[i].ps) == r.render(x.stages[t.who].ps));
      HarmfulSpoils(r, initial, x, t, i);
    }
  }

  lemma HarmfulSpoils(r: Rules, initial: Disk, x: Fleet, t: Turn, i: nat)
    requires Marked(r) && FilesOk(r, initial, x) && IsCreate(x, t) && i < |x.stages| && i != t.who && x.stages[i].Writing?
    requires !(x.stages[i].written == 0 && r.render(x.stages[i].ps) == r.render(x.stages[t.who].ps))
    ensures !StaysPublished(r, initial, Take(r, x, t))
  {
    var y, j := Take(r, x, t), t.who;
    var (a, f, k) := (x.stages[i].ps, x.stages[i].file, x.stages[i].written);
    var b := x.stages[j].ps;
    assert StageOk(r, x, x.stages[i]);
    assert Both(r, y, i, a, k, j, b, f, "");
    if k > 0 {
      TruncationSpoils(r, initial, y, i, a, k, j, b, f);
    } else if |r.render(a)| <= |r.render(b)| {
      DifferentTextsSpoil(r, initial, y, i, a, j, b, f);
    } else {
      DifferentTextsSpoil(r, initial, y, j, b, i, a, f);
    }
  }

  /** The same for what the compiler renders. */
  lemma CompilerCreateIsSafeExactly(initial: Disk, x: Fleet, t: Turn)
    requires FilesOk(CompilerRules(), initial, x) && IsCreate(x, t)
    ensures StaysPublished(CompilerRules(), initial, Take(CompilerRules(), x, t)) <==> Harmless(CompilerRules(), x, t)
  {
    CompilerIsMarked();
    CreateIsSafeExactly(CompilerRules(), initial, x, t);
  }

  /** It takes no tenant at all: two compilers of an empty store can leave an empty file. */
  lemma EmptyStoreCanSpoil(initial: Disk)
    requires DiskOk(initial)
    ensures var n := |RenderUcl([])|;
            n > 0 && Published(Turns(CompilerRules(), Start(initial, 2), Overlap([], [], n, 0)).disk) == Some("")
  {
    Schema.DocumentPasses([]);
    RenderingStartsWithHash([]);
    TwoCompilersCanSpoil(CompilerRules(), initial, [], [], |RenderUcl([])|);
  }

  // ------------------------------------------------------------------------
  // Next to the control plane
  // ------------------------------------------------------------------------

  /** A list the compiler can load from a store. */
  ghost predicate Loadable(db: Db, ps: seq<TenantPolicy>) { exists ds :: Compiles(db, ds, ps) }

  datatype JointEvent = Plane(event: Event) | Compile(turn: Turn)

  /** The control plane and the compilers. `origin` says for each compiler at which step it last
      loaded, `from` the same for the lists put in place. */
  datatype Joint = Joint(sys: System, fleet: Fleet, origin: seq<nat>, from: seq<nat>)

  /** The store after an audit step that lengthened the compilers' log. */
  function SysAfter(path: string, sys: System, log: seq<Action>, log': seq<Action>): System {
    if |log'| > |log| && log'[|log|].ConfigCompiled?
    then Apply(sys, Compiled(path, log'[|log|].tenants, log'[|log|].domains)) else sys
  }

  /** A load answers with what the store has at that moment; an audit step appends the entry to the
      store's own log. Nobody else writes such entries. */
  ghost function JointStep(r: Rules, path: string, x: Joint, e: JointEvent, now: nat): Joint {
    match e
    case Plane(event) => if event.Compiled? then x else x.(sys := Apply(x.sys, event))
    case Compile(t) =>
      if t.move.Load? && !Loadable(x.sys.db, t.move.ps) then x
      else
        var fleet := Take(r, x.fleet, t);
        Joint(SysAfter(path, x.sys, x.fleet.log, fleet.log),
              fleet,
              if t.move.Load? && t.who < |x.origin| && t.who < |x.fleet.stages| && x.fleet.stages[t.who].Idle?
              then x.origin[t.who := now] else x.origin,
              if |fleet.installed| > |x.fleet.installed| && t.who < |x.origin| then x.from + [x.origin[t.who]] else x.from)
  }

  ghost function JointRun(r: Rules, path: string, disk: Disk, n: nat, events: seq<JointEvent>): Joint {
    if events == [] then Joint(Initial, Start(disk, n), seq(n, _ => 0), [])
    else JointStep(r, path, JointRun(r, path, disk, n, events[..|events| - 1]), events[|events| - 1], |events| - 1)
  }

  ghost predicate JointExclusive(r: Rules, path: string, disk: Disk, n: nat, events: seq<JointEvent>) {
    forall k :: 0 <= k < |events| && events[k].Compile? ==> Exclusive(JointRun(r, path, disk, n, events[..k]).fleet, events[k].turn)
  }

  lemma {:induction false} JointIsReachable(r: Rules, path: string, disk: Disk, n: nat, events: seq<JointEvent>) returns (es: seq<Event>)
    ensures Run(Initial, es) == JointRun(r, path, disk, n, events).sys
  {
    if events == [] {
      es := [];
    } else {
      var init, e := events[..|events| - 1], events[|events| - 1];
      es := JointIsReachable(r, path, disk, n, init);
      var x, y := JointRun(r, path, disk, n, init), JointRun(r, path, disk, n, events);
      if y.sys != x.sys {
        var event := match e
          case Plane(event) => event
          case Compile(_) => var a := y.fleet.log[|x.fleet.log|]; Compiled(path, a.tenants, a.domains);
        RunSnoc(Initial, es, event);
        es := es + [event];
      }
    }
  }

  lemma TurnAppendsAtMostOne(r: Rules, x: Fleet, t: Turn)
    ensures var y := Take(r, x, t);
            && |y.stages| == |x.stages|
            && (y.installed == x.installed ||
                (t.who < |x.stages| && x.stages[t.who].Writing? && y.installed == x.installed + [x.stages[t.who].ps]))
            && (y.log == x.log || (|y.log| == |x.log| + 1 && y.log[..|x.log|] == x.log && y.log[|x.log|].ConfigCompiled?))
  {}

  lemma {:induction false} JointKeepsFiles(r: Rules, path: string, disk: Disk, n: nat, events: seq<JointEvent>)
    requires DiskOk(disk) && JointExclusive(r, path, disk, n, events)
    ensures var x := JointRun(r, path, disk, n, events).fleet; FilesOk(r, disk, x) && LogOk(x)
  {
    if events != [] {
      var init, e := events[..|events| - 1], events[|events| - 1];
      assert forall k :: 0 <= k < |init| ==> init[..k] == events[..k] && init[k] == events[k];
      JointKeepsFiles(r, path, disk, n, init);
      if e.Compile? {
        var x := JointRun(r, path, disk, n, init).fleet;
        TurnKeepsFiles(r, disk, x, e.turn);
        TurnKeepsLog(r, x, e.turn);
      }
    }
  }

  /** Step `k` of the run loaded the list `ps` from the store as it was then. */
  ghost predicate LoadedAt(r: Rules, path: string, disk: Disk, n: nat, events: seq<JointEvent>, k: nat, ps: seq<TenantPolicy>) {
    && k < |events| && events[k].Compile? && events[k].turn.move == Load(ps)
    && Loadable(JointRun(r, path, disk, n, events[..k]).sys.db, ps)
  }

  lemma LoadedAtStays(r: Rules, path: string, disk: Disk, n: nat, events: seq<JointEvent>, k: nat, ps: seq<TenantPolicy>)
    requires events != [] && LoadedAt(r, path, disk, n, events[..|events| - 1], k, ps)
    ensures LoadedAt(r, path, disk, n, events, k, ps)
  {
    assert events[..|events| - 1][..k] == events[..k];
  }

  ghost predicate OriginsOk(r: Rules, path: string, disk: Disk, n: nat, events: seq<JointEvent>, x: Joint) {
    && |x.origin| == |x.fleet.stages| && |x.from| == |x.fleet.installed|
    && (forall i :: 0 <= i < |x.origin| && !x.fleet.stages[i].Idle? ==>
          LoadedAt(r, path, disk, n, events, x.origin[i], x.fleet.stages[i].ps))
    && (forall i :: 0 <= i < |x.from| ==> LoadedAt(r, path, disk, n, events, x.from[i], x.fleet.installed[i]))
  }

  lemma StageKeepsList(r: Rules, x: Fleet, t: Turn, i: nat)
    requires i < |x.stages| && !Take(r, x, t).stages[i].Idle?
    ensures if t.who == i && t.move.Load? && x.stages[i].Idle? then Take(r, x, t).stages[i] == Loaded(t.move.ps)
            else !x.stages[i].Idle? && Take(r, x, t).stages[i].ps == x.stages[i].ps
  {}

  lemma StepKeepsOrigins(r: Rules, path: string, disk: Disk, n: nat, events: seq<JointEvent>)
    requires events != []
    requires var init := events[..|events| - 1]; OriginsOk(r, path, disk, n, init, JointRun(r, path, disk, n, init))
    ensures OriginsOk(r, path, disk, n, events, JointRun(r, path, disk, n, events))
  {
    var init, e := events[..|events| - 1], events[|events| - 1];
    var x, y := JointRun(r, path, disk, n, init), JointRun(r, path, disk, n, events);
    if e.Compile? { TurnAppendsAtMostOne(r, x.fleet, e.turn); }
    forall i | 0 <= i < |y.origin| && !y.fleet.stages[i].Idle?
      ensures LoadedAt(r, path, disk, n, events, y.origin[i], y.fleet.stages[i].ps)
    {
      if e.Compile? && y.fleet != x.fleet { StageKeepsList(r, x.fleet, e.turn, i); }
      if !x.fleet.stages[i].Idle? { LoadedAtStays(r, path, disk, n, events, x.origin[i], x.fleet.stages[i].ps); }
    }
    forall i | 0 <= i < |y.from| ensures LoadedAt(r, path, disk, n, events, y.from[i], y.fleet.installed[i]) {
      if i < |x.from| {
        LoadedAtStays(r, path, disk, n, events, x.from[i], x.fleet.installed[i]);
      } else {
        var who := e.turn.who;
        LoadedAtStays(r, path, disk, n, events, x.origin[who], x.fleet.stages[who].ps);
      }
    }
  }

  lemma {:induction false} OriginsAlwaysOk(r: Rules, path: string, disk: Disk, n: nat, events: seq<JointEvent>)
    ensures OriginsOk(r, path, disk, n, events, JointRun(r, path, disk, n, events))
  {
    if events != [] {
      OriginsAlwaysOk(r, path, disk, n, events[..|events| - 1]);
      StepKeepsOrigins(r, path, disk, n, events);
    }
  }

  /** `text` treats every recipient as the store `db` asks for. */
  ghost predicate Routes(db: Db, text: string) {
    Read(text).Some? && forall recipient :: RoutesExactly(db, Read(text).value, recipient)
  }

  lemma LoadedTextRoutes(db: Db, ps: seq<TenantPolicy>)
    requires Reachable(db) && Loadable(db, ps)
    ensures Routes(db, RenderUcl(ps))
  {
    var ds :| Compiles(db, ds, ps);
    forall recipient ensures Read(RenderUcl(ps)).Some? && RoutesExactly(db, Read(RenderUcl(ps)).value, recipient) {
      RoutingIsExact(db, ds, ps, recipient);
    }
    RoutingIsExact(db, ds, ps, "");
  }

  /** The settings path holds what it held at first, or the rendering put in place last, which
      routes every recipient exactly as the store asked for at the moment the cycle that put it
      there loaded it. */
  ghost predicate RoutesAsLoaded(path: string, disk: Disk, n: nat, events: seq<JointEvent>) {
    var x := JointRun(CompilerRules(), path, disk, n, events);
    if x.fleet.installed == [] then Published(x.fleet.disk) == Published(disk)
    else
      var last := |x.fleet.installed| - 1;
      && |x.from| == |x.fleet.installed|
      && LoadedAt(CompilerRules(), path, disk, n, events, x.from[last], x.fleet.installed[last])
      && Published(x.fleet.disk) == Some(RenderUcl(x.fleet.installed[last]))
      && Routes(JointRun(CompilerRules(), path, disk, n, events[..x.from[last]]).sys.db, RenderUcl(x.fleet.installed[last]))
  }

  /** The control plane, its workers and the compilers together, stopped anywhere any number of
      times. */
  lemma OutputAlwaysRoutes(path: string, disk: Disk, n: nat, events: seq<JointEvent>)
    requires DiskOk(disk) && JointExclusive(CompilerRules(), path, disk, n, events)
    ensures RoutesAsLoaded(path, disk, n, events)
  {
    var x := JointRun(CompilerRules(), path, disk, n, events);
    JointKeepsFiles(CompilerRules(), path, disk, n, events);
    OriginsAlwaysOk(CompilerRules(), path, disk, n, events);
    if x.fleet.installed != [] {
      var last := |x.fleet.installed| - 1;
      var k := x.from[last];
      assert LoadedAt(CompilerRules(), path, disk, n, events, k, x.fleet.installed[last]);
      var db := JointRun(CompilerRules(), path, disk, n, events[..k]).sys.db;
      var es := JointIsReachable(CompilerRules(), path, disk, n, events[..k]);
      assert Run(Initial, es).db == db;
      LoadedTextRoutes(db, x.fleet.installed[last]);
    }
  }

  lemma {:induction false} JointKeepsSize(r: Rules, path: string, disk: Disk, n: nat, events: seq<JointEvent>)
    ensures |JointRun(r, path, disk, n, events).fleet.stages| == n
  {
    if events != [] {
      var init, e := events[..|events| - 1], events[|events| - 1];
      JointKeepsSize(r, path, disk, n, init);
      if e.Compile? { TurnAppendsAtMostOne(r, JointRun(r, path, disk, n, init).fleet, e.turn); }
    }
  }

  // ------------------------------------------------------------------------
  // An undisturbed cycle
  // ------------------------------------------------------------------------

  lemma LoadTakes(r: Rules, x: Fleet, i: nat, ps: seq<TenantPolicy>)
    requires i < |x.stages| && x.stages[i].Idle?
    ensures Take(r, x, Turn(i, Load(ps))) == x.(stages := x.stages[i := Loaded(ps)])
  {}

  lemma CheckTakes(r: Rules, x: Fleet, i: nat, ps: seq<TenantPolicy>)
    requires i < |x.stages| && x.stages[i] == Loaded(ps)
    ensures Take(r, x, Turn(i, Check)) == x.(stages := x.stages[i := if r.passes(ps) then Passed(ps) else Idle])
  {}

  lemma CreateTakesAny(r: Rules, x: Fleet, i: nat, ps: seq<TenantPolicy>)
    requires i < |x.stages| && x.stages[i] == Passed(ps) && DiskOk(x.disk)
    ensures Take(r, x, Turn(i, Create)) == x.(disk := Created(x.disk), stages := x.stages[i := Writing(ps, TempOf(x.disk), 0)])
  {}

  lemma WriteTakes(r: Rules, x: Fleet, i: nat, ps: seq<TenantPolicy>, f: nat)
    requires i < |x.stages| && x.stages[i] == Writing(ps, f, 0) && f < |x.disk.files| && x.disk.files[f] == ""
    ensures Take(r, x, Turn(i, Write(|r.render(ps)|))) ==
            x.(disk := x.disk.(files := x.disk.files[f := r.render(ps)]), stages := x.stages[i := Writing(ps, f, |r.render(ps)|)])
  {
    assert r.render(ps)[0..0 + |r.render(ps)|] == r.render(ps);
    OverlayOnNothing(r.render(ps));
    assert r.render(ps)[0..] == r.render(ps);
  }

  lemma RenameTakes(r: Rules, x: Fleet, i: nat, ps: seq<TenantPolicy>, f: nat)
    requires i < |x.stages| && x.stages[i] == Writing(ps, f, |r.render(ps)|) && x.disk.temp == Some(f)
    ensures Take(r, x, Turn(i, Rename)) ==
            x.(disk := x.disk.(settings := Some(f), temp := None), installed := x.installed + [ps],
               stages := x.stages[i := Installed(ps, |x.installed|)])
  {}

  lemma AuditMoves(r: Rules, x: Fleet, i: nat, ps: seq<TenantPolicy>, k: nat)
    requires i < |x.stages| && x.stages[i] == Installed(ps, k)
    ensures var y := Take(r, x, Turn(i, Audit));
            y.disk == x.disk && y.installed == x.installed && y.stages == x.stages[i := Idle]
  {}

  /** The entry has the figures of the list. */
  lemma AuditLogs(r: Rules, x: Fleet, i: nat, ps: seq<TenantPolicy>, k: nat, entry: Action)
    requires i < |x.stages| && x.stages[i] == Installed(ps, k) && entry == ConfigCompiled(|ps|, TotalDomains(ps))
    ensures var y := Take(r, x, Turn(i, Audit)); y.audited == x.audited + [k] && y.log == x.log + [entry]
  {
    var y := Take(r, x, Turn(i, Audit));
    assert y == To(x.(audited := x.audited + [k], log := x.log + [entry]), i, Idle);
  }

  lemma AuditTakes(r: Rules, x: Fleet, i: nat, ps: seq<TenantPolicy>, k: nat)
    requires i < |x.stages| && x.stages[i] == Installed(ps, k)
    ensures Take(r, x, Turn(i, Audit)) ==
            x.(audited := x.audited + [k], log := x.log + [ConfigCompiled(|ps|, TotalDomains(ps))], stages := x.stages[i := Idle])
  {
    AuditMoves(r, x, i, ps, k);
    AuditLogs(r, x, i, ps, k, ConfigCompiled(|ps|, TotalDomains(ps)));
  }

  /** The fleet before the audit step of compiler `i`, when nobody else moved since it loaded `ps`. */
  predicate PutInPlace(r: Rules, x: Fleet, y: Fleet, i: nat, ps: seq<TenantPolicy>) {
    && i < |x.stages| && y.stages == x.stages[i := Installed(ps, |x.installed|)]
    && y.installed == x.installed + [ps] && y.audited == x.audited && y.log == x.log
    && Published(y.disk) == Some(r.render(ps)) && y.disk.temp == None
  }

  /** Load to Rename. */
  function InstallMoves(r: Rules, ps: seq<TenantPolicy>): seq<Move> { [Load(ps), Check, Create, Write(|r.render(ps)|), Rename] }

  function TurnsOf(i: nat, moves: seq<Move>): (ts: seq<Turn>)
    ensures |ts| == |moves|
  {
    seq(|moves|, k requires 0 <= k < |moves| => Turn(i, moves[k]))
  }

  function StageAt(r: Rules, x: Fleet, i: nat, ps: seq<TenantPolicy>, k: nat): Fleet
    requires i < |x.stages| && DiskOk(x.disk) && k <= 5
  {
    var c, f, n := Created(x.disk), TempOf(x.disk), |r.render(ps)|;
    if k == 0 then x
    else if k == 1 then x.(stages := x.stages[i := Loaded(ps)])
    else if k == 2 then x.(stages := x.stages[i := Passed(ps)])
    else if k == 3 then x.(disk := c, stages := x.stages[i := Writing(ps, f, 0)])
    else if k == 4 then x.(disk := Written(c, f, r.render(ps)), stages := x.stages[i := Writing(ps, f, n)])
    else x.(disk := Written(c, f, r.render(ps)).(settings := Some(f), temp := None), installed := x.installed + [ps],
            stages := x.stages[i := Installed(ps, |x.installed|)])
  }

  function Written(d: Disk, f: nat, text: string): Disk {
    if f < |d.files| then d.(files := d.files[f := text]) else d
  }

  lemma StageFollows(r: Rules, x: Fleet, i: nat, ps: seq<TenantPolicy>, k: nat)
    requires i < |x.stages| && x.stages[i].Idle? && DiskOk(x.disk) && r.passes(ps) && k < 5
    ensures Take(r, StageAt(r, x, i, ps, k), Turn(i, InstallMoves(r, ps)[k])) == StageAt(r, x, i, ps, k + 1)
  {
    var y, f := StageAt(r, x, i, ps, k), TempOf(x.disk);
    CreatedIsEmpty(x.disk);
    if k == 0 { LoadTakes(r, y, i, ps); }
    else if k == 1 { CheckTakes(r, y, i, ps); TwiceSet(x.stages, i, Loaded(ps), Passed(ps)); }
    else if k == 2 { CreateTakesAny(r, y, i, ps); TwiceSet(x.stages, i, Passed(ps), Writing(ps, f, 0)); }
    else if k == 3 { WriteTakes(r, y, i, ps, f); TwiceSet(x.stages, i, Writing(ps, f, 0), Writing(ps, f, |r.render(ps)|)); }
    else { RenameTakes(r, y, i, ps, f); TwiceSet(x.stages, i, Writing(ps, f, |r.render(ps)|), Installed(ps, |x.installed|)); }
  }

  lemma TwiceSet<T>(s: seq<T>, i: nat, a: T, b: T)
    requires i < |s|
    ensures s[i := a][i := b] == s[i := b]
  {}

  lemma InstalledIsInPlace(r: Rules, x: Fleet, i: nat, ps: seq<TenantPolicy>)
    requires i < |x.stages| && DiskOk(x.disk)
    ensures PutInPlace(r, x, StageAt(r, x, i, ps, 5), i, ps)
  {
    CreatedIsEmpty(x.disk);
  }

  /** A cycle nobody intervenes in, from any state of the fleet, whatever is left of earlier cycles: a
      list that passes the schema is published whole and then logged with its figures; of a list
      that does not, nothing remains. */
  lemma {:induction false} UndisturbedCycle(r: Rules, x: Fleet, i: nat, ps: seq<TenantPolicy>)
    requires i < |x.stages| && x.stages[i].Idle? && DiskOk(x.disk)
    ensures r.passes(ps) ==>
            var y := Turns(r, x, TurnsOf(i, InstallMoves(r, ps)));
            var z := Take(r, y, Turn(i, Audit));
            && PutInPlace(r, x, y, i, ps)
            && z == y.(audited := x.audited + [|x.installed|], log := x.log + [ConfigCompiled(|ps|, TotalDomains(ps))], stages := x.stages)
    ensures !r.passes(ps) ==> Take(r, Take(r, x, Turn(i, Load(ps))), Turn(i, Check)) == x
  {
    if r.passes(ps) {
      CycleReaches(r, x, i, ps, 5);
      assert InstallMoves(r, ps)[..5] == InstallMoves(r, ps);
      InstalledIsInPlace(r, x, i, ps);
      AuditTakes(r, StageAt(r, x, i, ps, 5), i, ps, |x.installed|);
      BackToIdle(x.stages, i, Installed(ps, |x.installed|));
    } else {
      LoadTakes(r, x, i, ps);
      CheckTakes(r, x.(stages := x.stages[i := Loaded(ps)]), i, ps);
      BackToIdle(x.stages, i, Loaded(ps));
    }
  }

  lemma BackToIdle(stages: seq<Stage>, i: nat, stage: Stage)
    requires i < |stages| && stages[i].Idle?
    ensures stages[i := stage][i := Idle] == stages
  {}

  lemma {:induction false} CycleReaches(r: Rules, x: Fleet, i: nat, ps: seq<TenantPolicy>, k: nat)
    requires i < |x.stages| && x.stages[i].Idle? && DiskOk(x.disk) && r.passes(ps) && k <= 5
    ensures Turns(r, x, TurnsOf(i, InstallMoves(r, ps)[..k])) == StageAt(r, x, i, ps, k)
  {
    if k > 0 {
      CycleReaches(r, x, i, ps, k - 1);
      StageFollows(r, x, i, ps, k - 1);
      var ts := TurnsOf(i, InstallMoves(r, ps)[..k]);
      assert ts[..k - 1] == TurnsOf(i, InstallMoves(r, ps)[..k - 1]);
    }
  }

  // ------------------------------------------------------------------------
  // In which order loads are put in place
  // ------------------------------------------------------------------------

  predicate Increasing(ks: seq<nat>) { forall i, j :: 0 <= i < j < |ks| ==> ks[i] < ks[j] }

  /** A Rename that takes effect is about a list loaded after all those put in place before. */
  ghost predicate InLoadOrder(r: Rules, path: string, x: Joint, e: JointEvent, now: nat) {
    var y := JointStep(r, path, x, e, now);
    |y.from| > |x.from| > 0 ==> x.from[|x.from| - 1] < y.from[|x.from|]
  }

  /** Every step of the run is. */
  ghost predicate AllInLoadOrder(r: Rules, path: string, disk: Disk, n: nat, events: seq<JointEvent>) {
    events != [] ==>
      var init, e := events[..|events| - 1], events[|events| - 1];
      AllInLoadOrder(r, path, disk, n, init) && InLoadOrder(r, path, JointRun(r, path, disk, n, init), e, |init|)
  }

  lemma OneStepInLoadOrder(r: Rules, path: string, x: Joint, e: JointEvent, now: nat)
    ensures Increasing(JointStep(r, path, x, e, now).from) <==> Increasing(x.from) && InLoadOrder(r, path, x, e, now)
  {
    var ks, ks' := x.from, JointStep(r, path, x, e, now).from;
    assert ks' == ks || (|ks'| == |ks| + 1 && ks' == ks + [ks'[|ks|]]);
    if Increasing(ks') { assert forall i, j :: 0 <= i < j < |ks| ==> ks[i] == ks'[i] && ks[j] == ks'[j]; }
    if ks' != ks && ks != [] { assert ks'[|ks| - 1] == ks[|ks| - 1]; }
  }

  /** Installs follow the order of the loads, so that an older state of the store never replaces a
      newer one, exactly when each Rename that takes effect finds only lists loaded earlier. */
  lemma {:induction false} InstallsFollowLoads(r: Rules, path: string, disk: Disk, n: nat, events: seq<JointEvent>)
    ensures Increasing(JointRun(r, path, disk, n, events).from) <==> AllInLoadOrder(r, path, disk, n, events)
  {
    if events != [] {
      var init, e := events[..|events| - 1], events[|events| - 1];
      InstallsFollowLoads(r, path, disk, n, init);
      OneStepInLoadOrder(r, path, JointRun(r, path, disk, n, init), e, |init|);
    }
  }

  /** A list not yet put in place was loaded after all those that were. */
  predicate LoadIsLatest(x: Joint) {
    |x.fleet.stages| == 1 && |x.origin| == 1 && Increasing(x.from) &&
    (x.fleet.stages[0].Loaded? || x.fleet.stages[0].Passed? || x.fleet.stages[0].Writing? ==>
       forall i :: 0 <= i < |x.from| ==> x.from[i] < x.origin[0])
  }

  lemma StepKeepsLoadLatest(r: Rules, path: string, x: Joint, e: JointEvent, now: nat)
    requires LoadIsLatest(x) && forall i :: 0 <= i < |x.from| ==> x.from[i] < now
    ensures LoadIsLatest(JointStep(r, path, x, e, now))
  {
    if e.Compile? { TurnAppendsAtMostOne(r, x.fleet, e.turn); }
  }

  /** One compiler needs no condition for either: what is published is always right for the newest
      state of the store that any published text was made from. */
  lemma {:induction false} OneCompilerIsInOrder(r: Rules, path: string, disk: Disk, events: seq<JointEvent>)
    ensures LoadIsLatest(JointRun(r, path, disk, 1, events))
  {
    if events != [] {
      var init := events[..|events| - 1];
      OneCompilerIsInOrder(r, path, disk, init);
      OriginsAlwaysOk(r, path, disk, 1, init);
      var x := JointRun(r, path, disk, 1, init);
      forall i | 0 <= i < |x.from| ensures x.from[i] < |init| { assert LoadedAt(r, path, disk, 1, init, x.from[i], x.fleet.installed[i]); }
      StepKeepsLoadLatest(r, path, x, events[|events| - 1], |init|);
    }
  }

  lemma OneCompilerAlwaysRoutes(path: string, disk: Disk, events: seq<JointEvent>)
    requires DiskOk(disk)
    ensures RoutesAsLoaded(path, disk, 1, events) && Increasing(JointRun(CompilerRules(), path, disk, 1, events).from)
  {
    forall k | 0 <= k < |events| && events[k].Compile?
      ensures Exclusive(JointRun(CompilerRules(), path, disk, 1, events[..k]).fleet, events[k].turn)
    {
      JointKeepsSize(CompilerRules(), path, disk, 1, events[..k]);
    }
    OutputAlwaysRoutes(path, disk, 1, events);
    OneCompilerIsInOrder(CompilerRules(), path, disk, events);
  }

  // ------------------------------------------------------------------------
  // The audit log of the store
  // ------------------------------------------------------------------------

  /** The `config.compiled` entries of a log. */
  function CompiledActions(log: seq<Entry>): seq<Action> {
    if log == [] then []
    else
      CompiledActions(log[..|log| - 1]) +
      if log[|log| - 1].action.ConfigCompiled? then [log[|log| - 1].action] else []
  }

  lemma ActionsSnoc(log: seq<Entry>, e: Entry)
    ensures CompiledActions(log + [e]) == CompiledActions(log) + if e.action.ConfigCompiled? then [e.action] else []
  {
    assert (log + [e])[..|log|] == log;
  }

  lemma OthersCompileNothing(s: System, e: Event)
    requires !e.Compiled?
    ensures CompiledActions(Apply(s, e).db.audit) == CompiledActions(s.db.audit)
  {
    EveryEventIsOneChange(s, e);
    var entries := EntriesOf(s.db, ChangeOf(s, e));
    if entries != [] {
      assert entries == [entries[0]] && !entries[0].action.ConfigCompiled?;
      ActionsSnoc(s.db.audit, entries[0]);
    } else {
      assert s.db.audit + entries == s.db.audit;
    }
  }

  lemma CompiledIsNoted(s: System, path: string, tenants: nat, domains: nat)
    ensures CompiledActions(Apply(s, Compiled(path, tenants, domains)).db.audit) ==
            CompiledActions(s.db.audit) + [ConfigCompiled(tenants, domains)]
  {
    ActionsSnoc(s.db.audit, Entry(None, "config-compiler", ConfigCompiled(tenants, domains), File(path)));
  }

  /** Every `config.compiled` entry of the store's log is about a rendering put in place before it,
      with that rendering's figures, and no two are about the same. */
  lemma {:induction false} EntriesFollowWrites(r: Rules, path: string, disk: Disk, n: nat, events: seq<JointEvent>)
    requires DiskOk(disk) && JointExclusive(r, path, disk, n, events)
    ensures var x := JointRun(r, path, disk, n, events);
            CompiledActions(x.sys.db.audit) == x.fleet.log && LogOk(x.fleet)
  {
    JointKeepsFiles(r, path, disk, n, events);
    if events != [] {
      var init, e := events[..|events| - 1], events[|events| - 1];
      assert forall k :: 0 <= k < |init| ==> init[..k] == events[..k] && init[k] == events[k];
      EntriesFollowWrites(r, path, disk, n, init);
      EntryFollowsWrite(r, path, JointRun(r, path, disk, n, init), e, |init|);
    }
  }

  lemma EntryFollowsWrite(r: Rules, path: string, x: Joint, e: JointEvent, now: nat)
    requires CompiledActions(x.sys.db.audit) == x.fleet.log
    ensures var y := JointStep(r, path, x, e, now); CompiledActions(y.sys.db.audit) == y.fleet.log
  {
    match e
    case Plane(event) => if !event.Compiled? { OthersCompileNothing(x.sys, event); }
    case Compile(t) =>
      TurnAppendsAtMostOne(r, x.fleet, t);
      LogIsNoted(path, x.sys, x.fleet.log, Take(r, x.fleet, t).log);
  }

  lemma LogIsNoted(path: string, sys: System, log: seq<Action>, log': seq<Action>)
    requires CompiledActions(sys.db.audit) == log
    requires log' == log || (|log'| == |log| + 1 && log'[..|log|] == log && log'[|log|].ConfigCompiled?)
    ensures CompiledActions(SysAfter(path, sys, log, log').db.audit) == log'
  {
    if log' != log {
      CompiledIsNoted(sys, path, log'[|log|].tenants, log'[|log|].domains);
      assert log' == log + [log'[|log|]];
    }
  }

  // ------------------------------------------------------------------------
  // A cycle next to the control plane, from start to end
  // ------------------------------------------------------------------------

  lemma JointSnoc(r: Rules, path: string, disk: Disk, n: nat, events: seq<JointEvent>, e: JointEvent)
    ensures JointRun(r, path, disk, n, events + [e]) == JointStep(r, path, JointRun(r, path, disk, n, events), e, |events|)
  {
    assert (events + [e])[..|events|] == events;
  }

  /** The fleet takes the turn, and the store is as it was unless something was audited. */
  lemma JointTurn(r: Rules, path: string, x: Joint, t: Turn, now: nat)
    requires t.move.Load? ==> Loadable(x.sys.db, t.move.ps)
    ensures var y := JointStep(r, path, x, Compile(t), now);
            y.fleet == Take(r, x.fleet, t) && (y.fleet.log == x.fleet.log ==> y.sys == x.sys)
  {}

  function CompileAll(ts: seq<Turn>): (es: seq<JointEvent>)
    ensures |es| == |ts| && forall k :: 0 <= k < |ts| ==> es[k] == Compile(ts[k])
  {
    seq(|ts|, k requires 0 <= k < |ts| => Compile(ts[k]))
  }

  lemma StagesLogNothing(r: Rules, x: Fleet, i: nat, ps: seq<TenantPolicy>, k: nat)
    requires i < |x.stages| && DiskOk(x.disk) && k <= 5
    ensures StageAt(r, x, i, ps, k).log == x.log
  {}

  lemma JointStageFollows(r: Rules, path: string, x: Fleet, y: Joint, i: nat, ps: seq<TenantPolicy>, k: nat, now: nat)
    requires i < |x.stages| && x.stages[i].Idle? && DiskOk(x.disk) && r.passes(ps) && k < 5 && Loadable(y.sys.db, ps)
    requires y.fleet == StageAt(r, x, i, ps, k)
    ensures var z := JointStep(r, path, y, Compile(Turn(i, InstallMoves(r, ps)[k])), now);
            z.fleet == StageAt(r, x, i, ps, k + 1) && z.sys == y.sys
  {
    StageFollows(r, x, i, ps, k);
    StagesLogNothing(r, x, i, ps, k);
    StagesLogNothing(r, x, i, ps, k + 1);
    JointTurn(r, path, y, Turn(i, InstallMoves(r, ps)[k]), now);
  }

  lemma OneMoreMove(i: nat, moves: seq<Move>, k: nat, events: seq<JointEvent>)
    requires k < |moves|
    ensures events + CompileAll(TurnsOf(i, moves[..k + 1])) == (events + CompileAll(TurnsOf(i, moves[..k]))) + [Compile(Turn(i, moves[k]))]
  {}

  /** The first `k` turns of the cycle, in a joint run. */
  lemma {:induction false} JointCycleReaches(r: Rules, path: string, disk: Disk, n: nat, events: seq<JointEvent>, i: nat,
                                             ps: seq<TenantPolicy>, k: nat)
    requires var x := JointRun(r, path, disk, n, events);
             i < |x.fleet.stages| && x.fleet.stages[i].Idle? && DiskOk(x.fleet.disk) && Loadable(x.sys.db, ps) && r.passes(ps)
    requires k <= 5
    ensures var x, y := JointRun(r, path, disk, n, events),
                        JointRun(r, path, disk, n, events + CompileAll(TurnsOf(i, InstallMoves(r, ps)[..k])));
            y.fleet == StageAt(r, x.fleet, i, ps, k) && y.sys == x.sys
  {
    if k == 0 {
      assert events + CompileAll(TurnsOf(i, InstallMoves(r, ps)[..0])) == events;
    } else {
      JointCycleReaches(r, path, disk, n, events, i, ps, k - 1);
      var init := events + CompileAll(TurnsOf(i, InstallMoves(r, ps)[..k - 1]));
      OneMoreMove(i, InstallMoves(r, ps), k - 1, events);
      JointSnoc(r, path, disk, n, init, Compile(Turn(i, InstallMoves(r, ps)[k - 1])));
      JointStageFollows(r, path, JointRun(r, path, disk, n, events).fleet, JointRun(r, path, disk, n, init), i, ps, k - 1, |init|);
    }
  }

  /** The audit step of a joint run: the store's log gets the entry, and nothing else changes. */
  lemma JointAudit(path: string, y: Joint, i: nat, ps: seq<TenantPolicy>, k: nat, now: nat)
    requires i < |y.fleet.stages| && y.fleet.stages[i] == Installed(ps, k)
    ensures var z := JointStep(CompilerRules(), path, y, Compile(Turn(i, Audit)), now);
            && z.fleet.disk == y.fleet.disk && z.fleet.stages == y.fleet.stages[i := Idle]
            && z.sys == y.sys.(db := y.sys.db.(audit := y.sys.db.audit +
                 [Entry(None, "config-compiler", ConfigCompiled(|ps|, TotalDomains(ps)), File(path))]))
  {
    AuditTakes(CompilerRules(), y.fleet, i, ps, k);
    AppliedEntry(y.sys, path, |ps|, TotalDomains(ps));
    LogLengthens(path, y.sys, y.fleet.log, ConfigCompiled(|ps|, TotalDomains(ps)));
  }

  lemma LogLengthens(path: string, sys: System, log: seq<Action>, a: Action)
    requires a.ConfigCompiled?
    ensures SysAfter(path, sys, log, log + [a]) == Apply(sys, Compiled(path, a.tenants, a.domains))
  {
    assert (log + [a])[|log|] == a;
  }

  lemma AppliedEntry(s: System, path: string, tenants: nat, domains: nat)
    ensures Apply(s, Compiled(path, tenants, domains)) ==
            s.(db := s.db.(audit := s.db.audit + [Entry(None, "config-compiler", ConfigCompiled(tenants, domains), File(path))]))
  {}

  ghost predicate CompileSucceeded(path: string, x: Joint, z: Joint, i: nat, ps: seq<TenantPolicy>) {
    && Published(z.fleet.disk) == Some(RenderUcl(ps)) && Routes(x.sys.db, RenderUcl(ps))
    && z.fleet.stages == x.fleet.stages
    && z.sys == x.sys.(db := x.sys.db.(audit := x.sys.db.audit +
         [Entry(None, "config-compiler", ConfigCompiled(|ServedTenants(x.sys.db)|, |ServedDomains(x.sys.db)|), File(path))]))
  }

  lemma JointInstall(r: Rules, path: string, disk: Disk, n: nat, events: seq<JointEvent>, i: nat, ps: seq<TenantPolicy>)
    requires var x := JointRun(r, path, disk, n, events);
             i < |x.fleet.stages| && x.fleet.stages[i].Idle? && DiskOk(x.fleet.disk) && Loadable(x.sys.db, ps) && r.passes(ps)
    ensures var x, y := JointRun(r, path, disk, n, events), JointRun(r, path, disk, n, events + CompileAll(TurnsOf(i, InstallMoves(r, ps))));
            y.fleet == StageAt(r, x.fleet, i, ps, 5) && y.sys == x.sys
  {
    JointCycleReaches(r, path, disk, n, events, i, ps, 5);
    assert InstallMoves(r, ps)[..5] == InstallMoves(r, ps);
  }

  lemma JointAfter(r: Rules, path: string, disk: Disk, n: nat, events: seq<JointEvent>, es: seq<JointEvent>, e: JointEvent)
    ensures JointRun(r, path, disk, n, events + (es + [e])) ==
            JointStep(r, path, JointRun(r, path, disk, n, events + es), e, |events + es|)
  {
    JointSnoc(r, path, disk, n, events + es, e);
    assert events + (es + [e]) == (events + es) + [e];
  }

  /** Liveness of a cycle: from every joint state reached without overlap, an idle compiler that loads
      what the store holds and is not disturbed until it has audited publishes a file that routes
      every recipient as that store asks for, and the store's log gets exactly the entry with the
      store's figures. The schema check never stands in its way. */
  lemma UndisturbedCyclePublishes(path: string, disk: Disk, n: nat, events: seq<JointEvent>, i: nat, ps: seq<TenantPolicy>)
    requires DiskOk(disk) && JointExclusive(CompilerRules(), path, disk, n, events)
    requires var x := JointRun(CompilerRules(), path, disk, n, events);
             i < |x.fleet.stages| && x.fleet.stages[i].Idle? && Loadable(x.sys.db, ps)
    ensures var r := CompilerRules();
            var cycle := CompileAll(TurnsOf(i, InstallMoves(r, ps))) + [Compile(Turn(i, Audit))];
            CompileSucceeded(path, JointRun(r, path, disk, n, events), JointRun(r, path, disk, n, events + cycle), i, ps)
  {
    var r := CompilerRules();
    var install, last := CompileAll(TurnsOf(i, InstallMoves(r, ps))), Compile(Turn(i, Audit));
    var x, y := JointRun(r, path, disk, n, events), JointRun(r, path, disk, n, events + install);
    JointAfter(r, path, disk, n, events, install, last);
    InstallHappens(path, disk, n, events, i, ps);
    InstalledAndAudited(path, x, y, i, ps, |events + install|);
  }

  lemma InstallHappens(path: string, disk: Disk, n: nat, events: seq<JointEvent>, i: nat, ps: seq<TenantPolicy>)
    requires DiskOk(disk) && JointExclusive(CompilerRules(), path, disk, n, events)
    requires var x := JointRun(CompilerRules(), path, disk, n, events);
             i < |x.fleet.stages| && x.fleet.stages[i].Idle? && Loadable(x.sys.db, ps)
    ensures var r := CompilerRules();
            var x, y := JointRun(r, path, disk, n, events), JointRun(r, path, disk, n, events + CompileAll(TurnsOf(i, InstallMoves(r, ps))));
            && DiskOk(x.fleet.disk) && y.fleet == StageAt(r, x.fleet, i, ps, 5) && y.sys == x.sys
            && Routes(x.sys.db, RenderUcl(ps)) && |ps| == |ServedTenants(x.sys.db)| && TotalDomains(ps) == |ServedDomains(x.sys.db)|
  {
    JointKeepsFiles(CompilerRules(), path, disk, n, events);
    LoadableIsGood(path, disk, n, events, ps);
    JointInstall(CompilerRules(), path, disk, n, events, i, ps);
  }

  lemma InstalledAndAudited(path: string, x: Joint, y: Joint, i: nat, ps: seq<TenantPolicy>, now: nat)
    requires i < |x.fleet.stages| && x.fleet.stages[i].Idle? && DiskOk(x.fleet.disk)
    requires y.fleet == StageAt(CompilerRules(), x.fleet, i, ps, 5) && y.sys == x.sys
    requires Routes(x.sys.db, RenderUcl(ps)) && |ps| == |ServedTenants(x.sys.db)| && TotalDomains(ps) == |ServedDomains(x.sys.db)|
    ensures CompileSucceeded(path, x, JointStep(CompilerRules(), path, y, Compile(Turn(i, Audit)), now), i, ps)
  {
    InstalledIsInPlace(CompilerRules(), x.fleet, i, ps);
    BackToIdle(x.fleet.stages, i, Installed(ps, |x.fleet.installed|));
    JointAudit(path, y, i, ps, |x.fleet.installed|, now);
  }

  lemma LoadableIsGood(path: string, disk: Disk, n: nat, events: seq<JointEvent>, ps: seq<TenantPolicy>)
    requires Loadable(JointRun(CompilerRules(), path, disk, n, events).sys.db, ps)
    ensures var db := JointRun(CompilerRules(), path, disk, n, events).sys.db;
            PassesSchema(ps) && Routes(db, RenderUcl(ps)) && |ps| == |ServedTenants(db)| && TotalDomains(ps) == |ServedDomains(db)|
  {
    var db := JointRun(CompilerRules(), path, disk, n, events).sys.db;
    var es := JointIsReachable(CompilerRules(), path, disk, n, events);
    assert Run(Initial, es).db == db;
    var ds :| Compiles(db, ds, ps);
    OwnOutputPasses(db, ds, ps);
    LoadedTextRoutes(db, ps);
    AuditedFigures(db, ds, ps);
  }
}
