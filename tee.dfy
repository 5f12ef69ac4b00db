/** The ttytee entry point: device setup, the two aliases, the loop and the teardown. */
module Tee {
  import opened Types
  import opened Policy
  import opened Loop
  import opened Pty
  import opened Links

  /** The configuration the core uses (the command-line layer fills it in). */
  datatype Config = Config(slave0: Path, slave1: Path, slaveReadTimeout: nat)

  /**
   * What the OS does during a run: whether the device opens, whether the
   * exclusive/timeout setup and the pty allocations succeed, the paths it
   * gives the two ptys, whether each symlink call fails, the clock at
   * startup, and the trace the loop sees.
   */
  datatype Host = Host(openOk: bool, setupOk: bool, ptyName0: Path, ptyName1: Path,
                       link0Fails: bool, link1Fails: bool, start: int, ticks: seq<Tick>)

  /** How the run ends: a returned exit code, or a panic. */
  datatype Outcome = Exit(code: int) | Panic

  /** The aliases left after teardown and whether both guards found their alias. */
  datatype Teardown = Teardown(links: map<Path, Path>, clean: bool)

  /**
   * The filesystem effect of one run that reaches the loop: create alias 0,
   * create alias 1, then drop guard 1 and guard 0 (reverse order, both
   * always attempted). After it both alias paths are gone, every other path
   * is as before, and the teardown is clean exactly when both links were
   * made at two different paths.
   */
  function Lifecycle(links: map<Path, Path>, cfg: Config, host: Host): (r: Teardown)
    ensures cfg.slave0 !in r.links && cfg.slave1 !in r.links
    ensures r.links == links - {cfg.slave0, cfg.slave1}
    ensures r.clean <==> cfg.slave0 != cfg.slave1 && !host.link0Fails && !host.link1Fails
  {
    var l0 := Created(links, host.ptyName0, cfg.slave0, host.link0Fails);
    var l1 := Created(l0, host.ptyName1, cfg.slave1, host.link1Fails);
    var dropped1 := l1 - {cfg.slave1};
    var dropped0 := dropped1 - {cfg.slave0};
    assert dropped0 == links - {cfg.slave0, cfg.slave1} by {
      assert l1 - {cfg.slave1} == l0 - {cfg.slave1};
      assert l0 - {cfg.slave0} == links - {cfg.slave0};
      assert forall p :: p in dropped0 <==> p in links && p != cfg.slave0 && p != cfg.slave1;
    }
    Teardown(dropped0, cfg.slave1 in l1 && cfg.slave0 in dropped1)
  }

  /**
   * One run of ttytee. An open failure returns 1 before any pty is
   * allocated; a failed setup panics; otherwise the loop runs until an
   * iteration finds the flag cleared, 0 is returned and the guards are
   * dropped, a guard that finds its alias gone turning the end into a panic.
   */
  method TtyTee(cfg: Config, fs: FileSystem, host: Host) returns (outcome: Outcome)
    requires host.openOk && host.setupOk ==> Stops(host.ticks) && Clocked(host.ticks)
    requires host.openOk && host.setupOk ==>
               forall i :: 0 <= i < |host.ticks| ==> host.start <= host.ticks[i].now && WellFormed(host.ticks[i])
    modifies fs
    ensures !host.openOk ==> outcome == Exit(1) && fs.links == old(fs.links)
    ensures host.openOk && !host.setupOk ==> outcome == Panic && fs.links == old(fs.links)
    ensures host.openOk && host.setupOk ==>
              var td := Lifecycle(old(fs.links), cfg, host);
              fs.links == td.links && outcome == (if td.clean then Exit(0) else Panic)
  {
    if !host.openOk {
      return Exit(1);
    }
    if !host.setupOk {
      return Panic;
    }
    var pair0 := new PtyPair(host.ptyName0);
    var pair1 := new PtyPair(host.ptyName1);
    var scs0 := new SelfCleaningSymlink.Create(pair0.name, cfg.slave0, fs, host.link0Fails);
    var scs1 := new SelfCleaningSymlink.Create(pair1.name, cfg.slave1, fs, host.link1Fails);
    var _, _ := Serve(pair0, pair1, host.start, host.ticks, cfg.slaveReadTimeout);
    var ok1 := scs1.Drop(fs);
    var ok0 := scs0.Drop(fs);
    outcome := if ok1 && ok0 then Exit(0) else Panic;
  }
}
