/** When running all plugins over all ports is, port by port, what running them on that port alone is. */
module RunnerAgreement {
  import opened PluginRunner

  function Restrict(fs: seq<PluginFinding>, port: nat): seq<PluginFinding> {
    if fs == [] then []
    else
      var n := |fs| - 1;
      Restrict(fs[..n], port) + (if fs[n].port == port then [fs[n]] else [])
  }

  lemma {:induction false} RestrictConcat(fs: seq<PluginFinding>, gs: seq<PluginFinding>, port: nat)
    ensures Restrict(fs + gs, port) == Restrict(fs, port) + Restrict(gs, port)
    decreases |gs|
  {
    if gs == [] {
      assert fs + gs == fs;
    } else {
      var n := |gs| - 1;
      RestrictConcat(fs, gs[..n], port);
      assert (fs + gs)[..|fs + gs| - 1] == fs + gs[..n];
    }
  }

  lemma {:induction false} RestrictSame(fs: seq<PluginFinding>, port: nat, other: nat)
    requires forall i | 0 <= i < |fs| :: fs[i].port == other
    ensures Restrict(fs, port) == if port == other then fs else []
  {
    if fs != [] {
      var n := |fs| - 1;
      RestrictSame(fs[..n], port, other);
      assert fs == fs[..n] + [fs[n]];
    }
  }

  /** A run reports findings for the port it is given. */
  ghost predicate ReportsItsPort<K(!new)>(run: Runner<K>) {
    forall lp, port, service, kb, i | 0 <= i < |run(lp, port, service, kb).findings| ::
      run(lp, port, service, kb).findings[i].port == port
  }

  lemma RestrictOut<K(!new)>(run: Runner<K>, pass: Pass, lp: Plugin, port: nat, st: PortState<K>, p: nat)
    requires ReportsItsPort(run)
    ensures Restrict(Out(run, pass, lp, port, st), p) == if p == port then Out(run, pass, lp, port, st) else []
  {
    RestrictSame(Out(run, pass, lp, port, st), p, port);
  }

  lemma {:induction false} RestrictRow<K(!new)>(run: Runner<K>, pass: Pass, lp: Plugin, ports: seq<nat>,
      at: nat -> PortState<K>, p: nat)
    requires ReportsItsPort(run)
    ensures Restrict(Row(run, pass, lp, ports, at), p) ==
            Outs(run, pass, Copies(lp, Times(ports, p)), p, at(p))
  {
    hide Out, ReportsItsPort, After, Outs, Copies;
    if ports == [] {
      NothingFound(run, pass, Copies(lp, Times(ports, p)), p, at(p));
    } else {
      hide Restrict;
      var n := |ports| - 1;
      var q, times := ports[n], Times(ports[..n], ports[n]);
      var before := After(run, pass, Copies(lp, times), q, at(q));
      RestrictRow(run, pass, lp, ports[..n], at, p);
      RestrictOut(run, pass, lp, q, before, p);
      RestrictConcat(Row(run, pass, lp, ports[..n], at), Out(run, pass, lp, q, before), p);
      AfterCopies(run, pass, lp, times, q, at(q));
    }
  }

  lemma NothingFound<K>(run: Runner<K>, pass: Pass, plugins: seq<Plugin>, port: nat, st: PortState<K>)
    requires |plugins| == 0
    ensures Outs(run, pass, plugins, port, st) == []
  {
  }

  /** Loop interchange: plugin-major restricted to a port is the fold over that port, with every plugin as often in a
      row as the port is listed. */
  lemma {:induction false} RestrictRows<K(!new)>(run: Runner<K>, pass: Pass, plugins: seq<Plugin>, ports: seq<nat>,
                                                 at: nat -> PortState<K>, p: nat)
    requires ReportsItsPort(run)
    ensures Restrict(Rows(run, pass, plugins, ports, at), p) ==
            Outs(run, pass, Stretch(plugins, Times(ports, p)), p, at(p))
  {
    hide Out, ReportsItsPort, Row, After, Outs, Copies, Times;
    if plugins == [] {
      NothingFound(run, pass, Stretch(plugins, Times(ports, p)), p, at(p));
    } else {
      hide Restrict, Stretch;
      var n := |plugins| - 1;
      var now := Along(run, pass, plugins[..n], ports, at);
      RestrictRows(run, pass, plugins[..n], ports, at, p);
      RestrictRow(run, pass, plugins[n], ports, now, p);
      RestrictConcat(Rows(run, pass, plugins[..n], ports, at), Row(run, pass, plugins[n], ports, now), p);
      AfterStretch(run, pass, plugins, Times(ports, p), p, at(p));
    }
  }

  /** No plugin of the targeted pass reports a service other than the one the port already has. */
  ghost predicate NoLateClaim<K>(run: Runner<K>, plugins: seq<Plugin>, port: nat, st: PortState<K>) {
    forall i | 0 <= i < |plugins| ::
      ClaimsNothing(run, plugins[i], port, After(run, Targeted(false), plugins[..i], port, st))
  }

  ghost predicate ClaimsNothing<K>(run: Runner<K>, lp: Plugin, port: nat, st: PortState<K>) {
    Applies(Targeted(false), lp, st) ==> Or(run(lp, port, st.service, st.kb).service, st.service) == st.service
  }

  lemma StepAgrees<K>(run: Runner<K>, lp: Plugin, port: nat, st: PortState<K>)
    ensures Next(run, Targeted(true), lp, port, st) == Next(run, Targeted(false), lp, port, st)
        <==> ClaimsNothing(run, lp, port, st)
    ensures Out(run, Targeted(true), lp, port, st) == Out(run, Targeted(false), lp, port, st)
  {
  }

  ghost predicate SameStates<K>(run: Runner<K>, plugins: seq<Plugin>, port: nat, st: PortState<K>) {
    forall i | 0 <= i <= |plugins| ::
      After(run, Targeted(true), plugins[..i], port, st) == After(run, Targeted(false), plugins[..i], port, st)
  }

  lemma SameStatesAppend<K>(run: Runner<K>, plugins: seq<Plugin>, port: nat, st: PortState<K>)
    requires plugins != []
    ensures SameStates(run, plugins, port, st) <==>
            && SameStates(run, plugins[..|plugins| - 1], port, st)
            && After(run, Targeted(true), plugins, port, st) == After(run, Targeted(false), plugins, port, st)
  {
    hide After;
    var before := plugins[..|plugins| - 1];
    assert plugins[..|plugins|] == plugins;
    assert forall i | 0 <= i <= |before| :: before[..i] == plugins[..i];
  }

  lemma NoLateClaimAppend<K>(run: Runner<K>, plugins: seq<Plugin>, port: nat, st: PortState<K>)
    requires plugins != []
    ensures var n := |plugins| - 1;
            NoLateClaim(run, plugins, port, st) <==>
            && NoLateClaim(run, plugins[..n], port, st)
            && ClaimsNothing(run, plugins[n], port, After(run, Targeted(false), plugins[..n], port, st))
  {
    hide After, ClaimsNothing;
    var before := plugins[..|plugins| - 1];
    assert forall i | 0 <= i < |before| :: before[..i] == plugins[..i] && before[i] == plugins[i];
  }

  /** The two runners take the port through the same states exactly if no targeted plugin claims a service. */
  lemma {:induction false} SameStatesIff<K>(run: Runner<K>, plugins: seq<Plugin>, port: nat, st: PortState<K>)
    ensures NoLateClaim(run, plugins, port, st) <==> SameStates(run, plugins, port, st)
  {
    if plugins != [] {
      hide ClaimsNothing, Next, NoLateClaim, SameStates;
      var n := |plugins| - 1;
      var before := plugins[..n];
      SameStatesIff(run, before, port, st);
      NoLateClaimAppend(run, plugins, port, st);
      SameStatesAppend(run, plugins, port, st);
      if SameStates(run, before, port, st) {
        SameStatesEnd(run, before, port, st);
        StepAgrees(run, plugins[n], port, After(run, Targeted(false), before, port, st));
      }
    } else {
      assert plugins[..0] == [];
    }
  }

  lemma SameStatesEnd<K>(run: Runner<K>, plugins: seq<Plugin>, port: nat, st: PortState<K>)
    requires SameStates(run, plugins, port, st)
    ensures After(run, Targeted(true), plugins, port, st) == After(run, Targeted(false), plugins, port, st)
  {
    hide After;
    assert plugins[..|plugins|] == plugins;
  }

  lemma {:induction false} SameFindings<K>(run: Runner<K>, plugins: seq<Plugin>, port: nat, st: PortState<K>)
    requires NoLateClaim(run, plugins, port, st)
    ensures Outs(run, Targeted(true), plugins, port, st) == Outs(run, Targeted(false), plugins, port, st)
  {
    if plugins != [] {
      hide After, NoLateClaim, ClaimsNothing, SameStates, Out, Next;
      var n := |plugins| - 1;
      var before := plugins[..n];
      NoLateClaimAppend(run, plugins, port, st);
      SameFindings(run, before, port, st);
      SameStatesIff(run, before, port, st);
      SameStatesEnd(run, before, port, st);
      StepAgrees(run, plugins[n], port, After(run, Targeted(false), before, port, st));
    }
  }

  /** The two runners find the same in the targeted pass. */
  ghost predicate SameOuts<K>(run: Runner<K>, plugins: seq<Plugin>, port: nat, st: PortState<K>) {
    Outs(run, Targeted(true), plugins, port, st) == Outs(run, Targeted(false), plugins, port, st)
  }

  /** For every service there is a plugin filtered by it that always finds something. */
  ghost predicate Watches<K(!new)>(run: Runner<K>, watch: string -> Plugin) {
    && (forall s :: !watch(s).filterAny && watch(s).filterService == s)
    && (forall s, port, service, kb :: run(watch(s), port, service, kb).findings != [])
  }

  lemma OutsAppend<K>(run: Runner<K>, pass: Pass, plugins: seq<Plugin>, w: Plugin, port: nat, st: PortState<K>)
    ensures Outs(run, pass, plugins + [w], port, st) ==
            Outs(run, pass, plugins, port, st) + Out(run, pass, w, port, After(run, pass, plugins, port, st))
  {
    hide After, Out;
    assert (plugins + [w])[..|plugins|] == plugins;
  }

  lemma AgreesWhileUnclaimed<K>(run: Runner<K>, plugins: seq<Plugin>, w: Plugin, port: nat, st: PortState<K>)
    requires NoLateClaim(run, plugins, port, st)
    ensures SameOuts(run, plugins + [w], port, st)
  {
    hide After, Outs, Out, NoLateClaim, SameStates, Next, ClaimsNothing;
    SameFindings(run, plugins, port, st);
    SameStatesIff(run, plugins, port, st);
    SameStatesEnd(run, plugins, port, st);
    OutsAppend(run, Targeted(true), plugins, w, port, st);
    OutsAppend(run, Targeted(false), plugins, w, port, st);
    StepAgrees(run, w, port, After(run, Targeted(false), plugins, port, st));
  }

  /** The first late claim shows in the findings of a plugin filtered by the claimed service. */
  lemma ClaimShows<K(!new)>(run: Runner<K>, plugins: seq<Plugin>, watch: string -> Plugin, port: nat,
      st: PortState<K>) returns (service: string)
    requires Watches(run, watch) && plugins != [] && NoLateClaim(run, plugins[..|plugins| - 1], port, st)
    requires !NoLateClaim(run, plugins, port, st)
    ensures !SameOuts(run, plugins + [watch(service)], port, st)
  {
    hide Outs, NoLateClaim, SameStates, Out, Next;
    var n := |plugins| - 1;
    var at := After(run, Targeted(false), plugins[..n], port, st);
    AgreesWhileUnclaimed(run, plugins[..n], plugins[n], port, st);
    assert plugins == plugins[..n] + [plugins[n]];
    NoLateClaimAppend(run, plugins, port, st);
    SameStatesIff(run, plugins[..n], port, st);
    SameStatesEnd(run, plugins[..n], port, st);
    service := run(plugins[n], port, at.service, at.kb).service;
    OutsAppend(run, Targeted(true), plugins, watch(service), port, st);
    OutsAppend(run, Targeted(false), plugins, watch(service), port, st);
    WatcherTells(run, plugins[n], watch(service), port, at);
  }

  lemma WatcherTells<K(!new)>(run: Runner<K>, lp: Plugin, w: Plugin, port: nat, st: PortState<K>)
    requires !ClaimsNothing(run, lp, port, st)
    requires !w.filterAny && w.filterService == run(lp, port, st.service, st.kb).service
    requires forall service, kb :: run(w, port, service, kb).findings != []
    ensures Out(run, Targeted(true), w, port, Next(run, Targeted(true), lp, port, st)) != []
    ensures Out(run, Targeted(false), w, port, Next(run, Targeted(false), lp, port, st)) == []
  {
  }

  /** Where every service is watched, the runners find the same on the port, wherever the list is cut and whatever
      watcher follows, exactly if no targeted plugin claims a service. */
  lemma SameFindingsIff<K(!new)>(run: Runner<K>, plugins: seq<Plugin>, watch: string -> Plugin, port: nat,
      st: PortState<K>)
    requires Watches(run, watch)
    ensures NoLateClaim(run, plugins, port, st) <==>
            forall i, s | 0 <= i <= |plugins| :: SameOuts(run, plugins[..i] + [watch(s)], port, st)
  {
    hide SameOuts, Watches;
    if NoLateClaim(run, plugins, port, st) {
      forall i, s | 0 <= i <= |plugins| ensures SameOuts(run, plugins[..i] + [watch(s)], port, st) {
        EarlierUnclaimed(run, plugins, i, port, st);
        AgreesWhileUnclaimed(run, plugins[..i], watch(s), port, st);
      }
    } else {
      var i := FirstClaim(run, plugins, port, st);
      assert plugins[..i + 1][..i] == plugins[..i];
      var s := ClaimShows(run, plugins[..i + 1], watch, port, st);
    }
  }

  lemma EarlierUnclaimed<K>(run: Runner<K>, plugins: seq<Plugin>, i: nat, port: nat, st: PortState<K>)
    requires i <= |plugins| && NoLateClaim(run, plugins, port, st)
    ensures NoLateClaim(run, plugins[..i], port, st)
  {
    hide After, ClaimsNothing;
    assert forall k | 0 <= k < i :: plugins[..i][..k] == plugins[..k];
  }

  lemma {:induction false} FirstClaim<K>(run: Runner<K>, plugins: seq<Plugin>, port: nat, st: PortState<K>)
    returns (i: nat)
    requires !NoLateClaim(run, plugins, port, st)
    ensures i < |plugins| && NoLateClaim(run, plugins[..i], port, st) && !NoLateClaim(run, plugins[..i + 1], port, st)
  {
    hide After, ClaimsNothing;
    assert plugins != [];
    var n := |plugins| - 1;
    hide NoLateClaim;
    if NoLateClaim(run, plugins[..n], port, st) {
      assert plugins[..n + 1] == plugins;
      i := n;
    } else {
      i := FirstClaim(run, plugins[..n], port, st);
      assert plugins[..n][..i] == plugins[..i] && plugins[..n][..i + 1] == plugins[..i + 1];
    }
  }

  function PortFindings<K>(run: Runner<K>, plugins: seq<Plugin>, port: nat, kb: K): seq<PluginFinding> {
    var detected := After(run, Detect, plugins, port, Fresh(kb));
    Outs(run, Detect, plugins, port, Fresh(kb)) + Outs(run, Targeted(true), plugins, port, detected)
  }

  /** The findings of run_all for one port, in their order, are the findings of run_for_port on it, with every plugin
      as often in a row as the port is listed. */
  lemma RunAllAgrees<K(!new)>(run: Runner<K>, plugins: seq<Plugin>, ports: seq<nat>, kb: K, p: nat)
    requires ReportsItsPort(run)
    requires var own := Stretch(plugins, Times(ports, p));
             NoLateClaim(run, own, p, After(run, Detect, own, p, Fresh(kb)))
    ensures Restrict(AllFindings(run, plugins, ports, kb), p) ==
            PortFindings(run, Stretch(plugins, Times(ports, p)), p, kb)
    ensures Times(ports, p) == 1 ==>
              Restrict(AllFindings(run, plugins, ports, kb), p) == PortFindings(run, plugins, p, kb)
  {
    hide Outs, After, Rows, NoLateClaim, ReportsItsPort, Times;
    var own := Stretch(plugins, Times(ports, p));
    StretchOnce(plugins);
    hide Stretch;
    var at := (q: nat) => Fresh(kb);
    var detected := Along(run, Detect, plugins, ports, at);
    RestrictRows(run, Detect, plugins, ports, at, p);
    RestrictRows(run, Targeted(false), plugins, ports, detected, p);
    RestrictConcat(Rows(run, Detect, plugins, ports, at), Rows(run, Targeted(false), plugins, ports, detected), p);
    SameFindings(run, own, p, detected(p));
  }

  // ---- why the condition is needed ----

  function Claimer(lp: Plugin, port: nat, service: string, kb: int): RunOutcome<int> {
    if lp.path == "a" then RunOutcome([], "http", "", "", kb)
    else RunOutcome([PluginFinding(port, "seen")], "", "", "", kb)
  }

  /** An unfiltered plugin that claims a service in the targeted pass lets a later filtered plugin run on a single
      port, but not in run_all. */
  lemma LateClaimMatters()
    ensures var plugins := [Plugin("a", false, ""), Plugin("b", false, "http")];
            && |PortFindings(Claimer, plugins, 80, 0)| == 1
            && |Restrict(AllFindings(Claimer, plugins, [80], 0), 80)| == 0
  {
    var a, b := Plugin("a", false, ""), Plugin("b", false, "http");
    var plugins := [a, b];
    assert plugins[..1] == [a] && plugins[..0] == [] && [a][..0] == [];
    var st := Fresh(0);
    NothingDetected(plugins, a, b);
    ClaimedHttp(plugins, a, b, st);
    var at := (q: nat) => Fresh(0);
    var detected := Along(Claimer, Detect, plugins, [80], at);
    StretchOnce(plugins);
    assert [80][..0] == [] && Times([80], 80) == 1 && detected(80) == st;
    hide After, Outs, Rows, Stretch;
    RestrictRows(Claimer, Detect, plugins, [80], at, 80);
    RestrictRows(Claimer, Targeted(false), plugins, [80], detected, 80);
    RestrictConcat(Rows(Claimer, Detect, plugins, [80], at),
                   Rows(Claimer, Targeted(false), plugins, [80], detected), 80);
  }

  lemma TwoPlugins<K>(run: Runner<K>, pass: Pass, a: Plugin, b: Plugin, port: nat, st: PortState<K>)
    ensures var next := Next(run, pass, a, port, st);
            && After(run, pass, [a, b], port, st) == Next(run, pass, b, port, next)
            && Outs(run, pass, [a, b], port, st) == Out(run, pass, a, port, st) + Out(run, pass, b, port, next)
  {
    assert [a, b][..1] == [a] && [a][..0] == [];
    assert After(run, pass, [a], port, st) == Next(run, pass, a, port, st);
    assert Outs(run, pass, [a], port, st) == Out(run, pass, a, port, st);
    hide Next, Out;
  }

  lemma NothingDetected(plugins: seq<Plugin>, a: Plugin, b: Plugin)
    requires plugins == [a, b] && !a.filterAny && !b.filterAny
    ensures After(Claimer, Detect, plugins, 80, Fresh(0)) == Fresh(0)
    ensures Outs(Claimer, Detect, plugins, 80, Fresh(0)) == []
  {
    hide After, Outs;
    TwoPlugins(Claimer, Detect, a, b, 80, Fresh(0));
  }

  lemma ClaimedHttp(plugins: seq<Plugin>, a: Plugin, b: Plugin, st: PortState<int>)
    requires plugins == [a, b] && a == Plugin("a", false, "") && b == Plugin("b", false, "http") && st == Fresh(0)
    ensures |Outs(Claimer, Targeted(true), plugins, 80, st)| == 1
    ensures Outs(Claimer, Targeted(false), plugins, 80, st) == []
  {
    hide After, Outs;
    TwoPlugins(Claimer, Targeted(true), a, b, 80, st);
    TwoPlugins(Claimer, Targeted(false), a, b, 80, st);
    assert "http" != "" && "b" != "a";
  }
}
