/** The two runners that take the plugins over one port or over all ports. */
module PluginRunner {
  datatype Plugin = Plugin(path: string, filterAny: bool, filterService: string)

  datatype PluginFinding = PluginFinding(port: nat, text: string)

  /** What one plugin run hands back, with the knowledge base of the port as it leaves it. */
  datatype RunOutcome<K> = RunOutcome(findings: seq<PluginFinding>, service: string, product: string,
      version: string, kb: K)

  /** A deterministic run_plugin: the plugin, the port, the service known so far and the port's knowledge base. */
  type Runner<!K> = (Plugin, nat, string, K) -> RunOutcome<K>

  /** What the runners keep for a port. */
  datatype PortState<K> = PortState(service: string, product: string, version: string, kb: K)

  /** The service-detection pass, and the pass of the targeted plugins. `claims` is whether a targeted plugin may
      still change the service. */
  datatype Pass = Detect | Targeted(claims: bool)

  predicate Applies<K>(pass: Pass, lp: Plugin, st: PortState<K>) {
    if pass.Detect? then lp.filterAny
    else !lp.filterAny && (lp.filterService == "" || lp.filterService == st.service)
  }

  function Or(a: string, b: string): string {
    if a != "" then a else b
  }

  function Next<K>(run: Runner<K>, pass: Pass, lp: Plugin, port: nat, st: PortState<K>): PortState<K> {
    if !Applies(pass, lp, st) then st
    else
      var r := run(lp, port, st.service, st.kb);
      PortState(if pass == Targeted(false) then st.service else Or(r.service, st.service),
                Or(r.product, st.product), Or(r.version, st.version), r.kb)
  }

  function Out<K>(run: Runner<K>, pass: Pass, lp: Plugin, port: nat, st: PortState<K>): seq<PluginFinding> {
    if Applies(pass, lp, st) then run(lp, port, st.service, st.kb).findings else []
  }

  /** The state of a port after the plugins, and the findings they add, on that port alone. */
  function After<K>(run: Runner<K>, pass: Pass, plugins: seq<Plugin>, port: nat, st: PortState<K>): PortState<K> {
    if plugins == [] then st
    else
      var n := |plugins| - 1;
      Next(run, pass, plugins[n], port, After(run, pass, plugins[..n], port, st))
  }

  function Outs<K>(run: Runner<K>, pass: Pass, plugins: seq<Plugin>, port: nat, st: PortState<K>): seq<PluginFinding> {
    if plugins == [] then []
    else
      var n := |plugins| - 1;
      Outs(run, pass, plugins[..n], port, st)
      + Out(run, pass, plugins[n], port, After(run, pass, plugins[..n], port, st))
  }

  // ---- one port ----

  /** One plugin on a port: whether its filter lets it run, and what its claims leave of the port. */
  method RunOne<K>(run: Runner<K>, pass: Pass, lp: Plugin, port: nat, st0: PortState<K>)
    returns (st: PortState<K>, findings: seq<PluginFinding>)
    ensures st == Next(run, pass, lp, port, st0) && findings == Out(run, pass, lp, port, st0)
  {
    st, findings := st0, [];
    if pass.Detect? {
      if !lp.filterAny {
        return;
      }
    } else {
      if lp.filterAny {
        return;
      }
      if lp.filterService != "" && lp.filterService != st.service {
        return;
      }
    }
    assert pass == Targeted(false) <==> pass.Targeted? && !pass.claims;
    var r := run(lp, port, st.service, st.kb);
    findings := r.findings;
    st := st.(kb := r.kb);
    if r.service != "" && (pass.Detect? || pass.claims) {
      st := st.(service := r.service);
    }
    if r.product != "" {
      st := st.(product := r.product);
    }
    if r.version != "" {
      st := st.(version := r.version);
    }
  }

  method PassOnPort<K>(run: Runner<K>, pass: Pass, plugins: seq<Plugin>, port: nat, st0: PortState<K>)
    returns (st: PortState<K>, findings: seq<PluginFinding>)
    ensures st == After(run, pass, plugins, port, st0) && findings == Outs(run, pass, plugins, port, st0)
  {
    st, findings := st0, [];
    for i := 0 to |plugins|
      invariant st == After(run, pass, plugins[..i], port, st0)
      invariant findings == Outs(run, pass, plugins[..i], port, st0)
    {
      assert plugins[..i + 1][..i] == plugins[..i];
      var more;
      st, more := RunOne(run, pass, plugins[i], port, st);
      findings := findings + more;
    }
    assert plugins[..|plugins|] == plugins;
  }

  method RunForPort<K>(run: Runner<K>, plugins: seq<Plugin>, port: nat, initialService: string, kb: K)
    returns (st: PortState<K>, findings: seq<PluginFinding>)
    ensures var detected := After(run, Detect, plugins, port, PortState(initialService, "", "", kb));
            && st == After(run, Targeted(true), plugins, port, detected)
            && findings == Outs(run, Detect, plugins, port, PortState(initialService, "", "", kb))
                           + Outs(run, Targeted(true), plugins, port, detected)
  {
    st := PortState(initialService, "", "", kb);
    st, findings := PassOnPort(run, Detect, plugins, port, st);
    var more;
    st, more := PassOnPort(run, Targeted(true), plugins, port, st);
    findings := findings + more;
  }

  // ---- all ports ----

  /** How often a port is listed. */
  function Times(ports: seq<nat>, p: nat): nat {
    if ports == [] then 0
    else
      var n := |ports| - 1;
      Times(ports[..n], p) + if ports[n] == p then 1 else 0
  }

  lemma TimesAppend(ports: seq<nat>, port: nat, p: nat)
    ensures Times(ports + [port], p) == Times(ports, p) + if p == port then 1 else 0
  {
    assert (ports + [port])[..|ports|] == ports;
  }

  /** A port may be listed more than once: every plugin then runs on it as often, in a row. */
  function Copies(lp: Plugin, times: nat): (plugins: seq<Plugin>)
    ensures |plugins| == times
  {
    seq(times, _ => lp)
  }

  function Stretch(plugins: seq<Plugin>, times: nat): seq<Plugin> {
    if plugins == [] then []
    else
      var n := |plugins| - 1;
      Stretch(plugins[..n], times) + Copies(plugins[n], times)
  }

  lemma {:induction false} StretchOnce(plugins: seq<Plugin>)
    ensures Stretch(plugins, 1) == plugins
  {
    if plugins != [] {
      var n := |plugins| - 1;
      StretchOnce(plugins[..n]);
      assert plugins == plugins[..n] + [plugins[n]];
    }
  }

  lemma {:induction false} AfterConcat<K>(run: Runner<K>, pass: Pass, ps: seq<Plugin>, qs: seq<Plugin>, port: nat,
      st: PortState<K>)
    ensures var between := After(run, pass, ps, port, st);
            && After(run, pass, ps + qs, port, st) == After(run, pass, qs, port, between)
            && Outs(run, pass, ps + qs, port, st) == Outs(run, pass, ps, port, st) + Outs(run, pass, qs, port, between)
    decreases |qs|
  {
    hide Next, Out;
    if qs == [] {
      assert ps + qs == ps;
    } else {
      var n := |qs| - 1;
      AfterConcat(run, pass, ps, qs[..n], port, st);
      assert (ps + qs)[..|ps + qs| - 1] == ps + qs[..n];
    }
  }

  lemma NoCopies<K>(run: Runner<K>, pass: Pass, lp: Plugin, port: nat, st: PortState<K>)
    ensures After(run, pass, Copies(lp, 0), port, st) == st
  {
  }

  lemma AfterCopies<K>(run: Runner<K>, pass: Pass, lp: Plugin, times: nat, port: nat, st: PortState<K>)
    ensures var before := After(run, pass, Copies(lp, times), port, st);
            && After(run, pass, Copies(lp, times + 1), port, st) == Next(run, pass, lp, port, before)
            && Outs(run, pass, Copies(lp, times + 1), port, st)
               == Outs(run, pass, Copies(lp, times), port, st) + Out(run, pass, lp, port, before)
  {
    hide Next, Out;
    assert Copies(lp, times + 1)[..times] == Copies(lp, times);
  }

  lemma AfterStretch<K>(run: Runner<K>, pass: Pass, plugins: seq<Plugin>, times: nat, port: nat, st: PortState<K>)
    requires plugins != []
    ensures var n := |plugins| - 1;
            var before := After(run, pass, Stretch(plugins[..n], times), port, st);
            && After(run, pass, Stretch(plugins, times), port, st)
               == After(run, pass, Copies(plugins[n], times), port, before)
            && Outs(run, pass, Stretch(plugins, times), port, st)
               == Outs(run, pass, Stretch(plugins[..n], times), port, st)
                  + Outs(run, pass, Copies(plugins[n], times), port, before)
  {
    hide After, Outs, Copies;
    var n := |plugins| - 1;
    AfterConcat(run, pass, Stretch(plugins[..n], times), Copies(plugins[n], times), port, st);
  }

  /** What one plugin adds over the first ports, each beginning in the state `at` gives it. */
  function Row<K>(run: Runner<K>, pass: Pass, lp: Plugin, ports: seq<nat>,
      at: nat -> PortState<K>): seq<PluginFinding> {
    if ports == [] then []
    else
      var n := |ports| - 1;
      var p := ports[n];
      Row(run, pass, lp, ports[..n], at)
      + Out(run, pass, lp, p, After(run, pass, Copies(lp, Times(ports[..n], p)), p, at(p)))
  }

  /** Plugin by plugin, and for each plugin port by port, every port going through its own states. */
  function Rows<K>(run: Runner<K>, pass: Pass, plugins: seq<Plugin>, ports: seq<nat>,
      at: nat -> PortState<K>): seq<PluginFinding> {
    if plugins == [] then []
    else
      var n := |plugins| - 1;
      Rows(run, pass, plugins[..n], ports, at)
      + Row(run, pass, plugins[n], ports, Along(run, pass, plugins[..n], ports, at))
  }

  /** The state of every port after the plugins. */
  function Along<K>(run: Runner<K>, pass: Pass, plugins: seq<Plugin>, ports: seq<nat>, at: nat -> PortState<K>)
    : nat -> PortState<K>
  {
    (p: nat) => After(run, pass, Stretch(plugins, Times(ports, p)), p, at(p))
  }

  ghost predicate Holds<K>(states: map<nat, PortState<K>>, ports: seq<nat>, at: nat -> PortState<K>) {
    forall p: nat | p in ports :: p in states && states[p] == at(p)
  }

  /** The states once one plugin has run over the listed ports. */
  ghost predicate Ran<K>(run: Runner<K>, pass: Pass, lp: Plugin, ports: seq<nat>, done: seq<nat>,
      at: nat -> PortState<K>, states: map<nat, PortState<K>>) {
    forall p: nat | p in ports ::
      p in states && states[p] == After(run, pass, Copies(lp, Times(done, p)), p, at(p))
  }

  lemma RanNowhere<K>(run: Runner<K>, pass: Pass, lp: Plugin, ports: seq<nat>, at: nat -> PortState<K>,
      states: map<nat, PortState<K>>)
    requires Holds(states, ports, at)
    ensures Ran(run, pass, lp, ports, [], at, states)
  {
    hide After;
    forall p: nat | p in ports ensures After(run, pass, Copies(lp, 0), p, at(p)) == at(p) {
      NoCopies(run, pass, lp, p, at(p));
    }
  }

  lemma RanOnceMore<K>(run: Runner<K>, pass: Pass, lp: Plugin, ports: seq<nat>, done: seq<nat>, port: nat,
      at: nat -> PortState<K>, states: map<nat, PortState<K>>)
    requires Ran(run, pass, lp, ports, done, at, states) && port in ports
    ensures port in states
    ensures states[port] == After(run, pass, Copies(lp, Times(done, port)), port, at(port))
    ensures Ran(run, pass, lp, ports, done + [port], at, states[port := Next(run, pass, lp, port, states[port])])
  {
    hide Next, After, Copies, Times;
    AfterCopies(run, pass, lp, Times(done, port), port, at(port));
    var next := states[port := Next(run, pass, lp, port, states[port])];
    forall p: nat | p in ports
      ensures next[p] == After(run, pass, Copies(lp, Times(done + [port], p)), p, at(p))
    {
      TimesAppend(done, port, p);
    }
  }

  lemma RanEverywhere<K>(run: Runner<K>, pass: Pass, plugins: seq<Plugin>, ports: seq<nat>, at: nat -> PortState<K>,
      states: map<nat, PortState<K>>)
    requires plugins != []
    requires var n := |plugins| - 1;
             Ran(run, pass, plugins[n], ports, ports, Along(run, pass, plugins[..n], ports, at), states)
    ensures Holds(states, ports, Along(run, pass, plugins, ports, at))
  {
    hide After, Copies, Stretch, Times;
    forall p: nat | p in ports ensures p in states && states[p] == Along(run, pass, plugins, ports, at)(p) {
      AfterStretch(run, pass, plugins, Times(ports, p), p, at(p));
    }
  }

  method PassOnPorts<K>(run: Runner<K>, pass: Pass, plugins: seq<Plugin>, ports: seq<nat>,
                        states0: map<nat, PortState<K>>, ghost at: nat -> PortState<K>)
    returns (states: map<nat, PortState<K>>, all: seq<PluginFinding>)
    requires Holds(states0, ports, at)
    ensures Holds(states, ports, Along(run, pass, plugins, ports, at))
    ensures all == Rows(run, pass, plugins, ports, at)
  {
    NoPlugins(run, pass, ports, at, states0);
    assert Rows(run, pass, [], ports, at) == [];
    hide *;
    states, all := states0, [];
    assert plugins[..0] == [];
    for i := 0 to |plugins|
      invariant Holds(states, ports, Along(run, pass, plugins[..i], ports, at))
      invariant all == Rows(run, pass, plugins[..i], ports, at)
    {
      ghost var now := Along(run, pass, plugins[..i], ports, at);
      var row;
      states, row := PluginOnPorts(run, pass, plugins[i], ports, states, now);
      all := all + row;
      ghost var done := plugins[..i + 1];
      assert done[..i] == plugins[..i] && done[i] == plugins[i];
      RowsUnfold(run, pass, done, ports, at);
      RanEverywhere(run, pass, done, ports, at, states);
    }
    assert plugins[..|plugins|] == plugins;
  }

  lemma RowsUnfold<K>(run: Runner<K>, pass: Pass, plugins: seq<Plugin>, ports: seq<nat>, at: nat -> PortState<K>)
    requires plugins != []
    ensures var n := |plugins| - 1;
            Rows(run, pass, plugins, ports, at)
            == Rows(run, pass, plugins[..n], ports, at)
               + Row(run, pass, plugins[n], ports, Along(run, pass, plugins[..n], ports, at))
  {
    hide Row, Along;
  }

  lemma NoPlugins<K>(run: Runner<K>, pass: Pass, ports: seq<nat>, at: nat -> PortState<K>,
      states: map<nat, PortState<K>>)
    requires Holds(states, ports, at)
    ensures Holds(states, ports, Along(run, pass, [], ports, at))
  {
  }

  /** The inner loop: one plugin over the ports. */
  method PluginOnPorts<K>(run: Runner<K>, pass: Pass, lp: Plugin, ports: seq<nat>, states0: map<nat, PortState<K>>,
                          ghost at: nat -> PortState<K>)
    returns (states: map<nat, PortState<K>>, row: seq<PluginFinding>)
    requires Holds(states0, ports, at)
    ensures Ran(run, pass, lp, ports, ports, at, states)
    ensures row == Row(run, pass, lp, ports, at)
  {
    states, row := states0, [];
    RanNowhere(run, pass, lp, ports, at, states);
    hide Next, Out, Copies, After, Holds, Ran, Times;
    for j := 0 to |ports|
      invariant Ran(run, pass, lp, ports, ports[..j], at, states)
      invariant row == Row(run, pass, lp, ports[..j], at)
    {
      var port := ports[j];
      assert ports[..j + 1][..j] == ports[..j] && ports[..j + 1] == ports[..j] + [port];
      RanOnceMore(run, pass, lp, ports, ports[..j], port, at, states);
      var st, more := RunOne(run, pass, lp, port, states[port]);
      row := row + more;
      states := states[port := st];
    }
    assert ports[..|ports|] == ports;
  }

  method RunAll<K>(run: Runner<K>, plugins: seq<Plugin>, ports: seq<nat>, kb: K) returns (all: seq<PluginFinding>)
    ensures all == AllFindings(run, plugins, ports, kb)
  {
    var states := map p | p in ports :: PortState("", "", "", kb);
    ghost var at := (p: nat) => Fresh(kb);
    states, all := PassOnPorts(run, Detect, plugins, ports, states, at);
    var more;
    states, more := PassOnPorts(run, Targeted(false), plugins, ports, states, Along(run, Detect, plugins, ports, at));
    all := all + more;
  }

  function Fresh<K>(kb: K): PortState<K> {
    PortState("", "", "", kb)
  }

  function AllFindings<K>(run: Runner<K>, plugins: seq<Plugin>, ports: seq<nat>, kb: K): seq<PluginFinding> {
    var at := (p: nat) => Fresh(kb);
    Rows(run, Detect, plugins, ports, at)
    + Rows(run, Targeted(false), plugins, ports, Along(run, Detect, plugins, ports, at))
  }
}
