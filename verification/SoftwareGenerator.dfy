/** Deploying one software VRF: config/software_generator.go and config/frr.go, on a host
    whose file and daemon calls may fail at any time. */
module SoftwareGenerator {
  import opened Text
  import opened Types
  import opened SupervisorEnv

  /** What the templates are executed with; the fixed text around it carries nothing. */
  datatype Content =
    | Pem(text: string)
    | Conf(clientName: string, crypto1: string, crypto2: string, endpoints: seq<Endpoint>)
    | Ini(program: string, env: Environment)
    | Vtysh(commands: seq<FrrCommand>)

  datatype FrrCommand =
    | RouterBgp(localAs: nat, vrf: nat, neighbors: seq<string>)
    | RouterOspf(vrf: nat, vlans: seq<nat>)
    | NoRouterBgp(localAs: nat, vrf: nat)

  /** One BGP instance per VRF, with its AS number, and the VRFs running OSPF. */
  datatype Frr = Frr(bgp: map<nat, nat>, ospf: set<nat>)

  /** FRR knows no AS 0 and does not change the AS of a running instance; taking an
      instance down needs its AS number. */
  function RunCommand(frr: Frr, c: FrrCommand): Frr {
    match c
    case RouterBgp(localAs, vrf, _) =>
      if localAs == 0 || vrf in frr.bgp then frr else frr.(bgp := frr.bgp[vrf := localAs])
    case RouterOspf(vrf, _) => frr.(ospf := frr.ospf + {vrf})
    case NoRouterBgp(localAs, vrf) =>
      if vrf in frr.bgp && frr.bgp[vrf] == localAs then frr.(bgp := frr.bgp - {vrf}) else frr
  }

  function RunCommands(frr: Frr, cs: seq<FrrCommand>): Frr {
    if cs == [] then frr else RunCommand(RunCommands(frr, cs[..|cs| - 1]), cs[|cs| - 1])
  }

  /** `swan` and `programs` are the files as strongSwan and supervisord last read them;
      `tick` counts the calls made so far. */
  datatype World = World(
    files: map<string, Content>, swan: map<string, Content>, programs: map<string, Content>, frr: Frr, tick: nat)

  const VTYSH_ONLY: map<string, Content> := map[VTYSH := Vtysh([])]

  /** An empty vtysh file, which NewSoftwareGenerator writes, and daemons that know it. */
  const INITIAL_WORLD := World(VTYSH_ONLY, VTYSH_ONLY, VTYSH_ONLY, Frr(map[], {}), 0)

  /** Which calls fail. */
  type Faults = nat -> bool

  const VTYSH := "/opt/frr/vtysh.conf"

  /** A write is atomic. */
  function WriteFile(o: Faults, w: World, path: string, content: Content): (World, bool) {
    if o(w.tick) then (w.(tick := w.tick + 1), false)
    else (w.(files := w.files[path := content], tick := w.tick + 1), true)
  }

  /** os.RemoveAll does not mind a missing path. */
  function RemoveAll(o: Faults, w: World, path: string): (World, bool) {
    if o(w.tick) then (w.(tick := w.tick + 1), false)
    else (w.(files := w.files - {path}, tick := w.tick + 1), true)
  }

  /** os.Remove does. */
  function Remove(o: Faults, w: World, path: string): (World, bool) {
    if o(w.tick) || path !in w.files then (w.(tick := w.tick + 1), false)
    else (w.(files := w.files - {path}, tick := w.tick + 1), true)
  }

  /** strongSwan reads its files again. */
  function ReloadStrongswan(o: Faults, w: World): (World, bool) {
    if o(w.tick) then (w.(tick := w.tick + 1), false) else (w.(swan := w.files, tick := w.tick + 1), true)
  }

  /** supervisord reads its program files again. */
  function ReloadSupervisor(o: Faults, w: World): (World, bool) {
    if o(w.tick) then (w.(tick := w.tick + 1), false) else (w.(programs := w.files, tick := w.tick + 1), true)
  }

  /** Reloading vtysh runs the commands in its file. */
  function ReloadVtysh(o: Faults, w: World): (World, bool) {
    if o(w.tick) then (w.(tick := w.tick + 1), false)
    else
      var cs := if VTYSH in w.files && w.files[VTYSH].Vtysh? then w.files[VTYSH].commands else [];
      (w.(frr := RunCommands(w.frr, cs), tick := w.tick + 1), true)
  }

  function StoreFrrConfig(o: Faults, w: World, cs: seq<FrrCommand>): (World, bool) {
    var (w1, ok) := WriteFile(o, w, VTYSH, Vtysh(cs));
    if !ok then (w1, false) else ReloadVtysh(o, w1)
  }

  function ConfPath(id: nat): string { "/opt/ipsec/conf/" + ("vrf" + Decimal(id)) + ".conf" }

  function IniPath(id: nat): string { "/opt/super_net/" + ("vrf" + Decimal(id)) + ".ini" }

  function CertPath(client: string, ip: string): string { "/opt/ipsec/x509/" + (client + ['-'] + ip) + ".pem" }

  function KeyPath(client: string, ip: string): string { "/opt/ipsec/rsa/" + (client + ['-'] + ip) + ".key.pem" }

  /** strings.ReplaceAll(s, "--", "-"). */
  function CollapseDashes(s: string): string {
    if |s| < 2 then s
    else if s[0] == '-' && s[1] == '-' then ['-'] + CollapseDashes(s[2..])
    else [s[0]] + CollapseDashes(s[1..])
  }

  function ConvertToString(crypto: seq<string>): string { CollapseDashes(Join(crypto, "-")) }

  function ConfContent(v: Vrf): Content {
    Conf(v.clientName, ConvertToString(v.cryptoPh1), ConvertToString(v.cryptoPh2), v.endpoints)
  }

  function EndpointWrites(client: string, e: Endpoint): seq<(string, Content)> {
    if !e.IsCerts() then []
    else [(CertPath(client, e.peerIp), Pem(e.auth.remoteCert)),
          (CertPath(client, e.localIp), Pem(e.auth.localCert)),
          (KeyPath(client, e.peerIp), Pem(e.auth.privateKey))]
  }

  function CertWrites(client: string, es: seq<Endpoint>): seq<(string, Content)> {
    if es == [] then [] else CertWrites(client, es[..|es| - 1]) + EndpointWrites(client, es[|es| - 1])
  }

  function EndpointPaths(client: string, e: Endpoint): seq<string> {
    if !e.IsCerts() then []
    else [CertPath(client, e.peerIp), CertPath(client, e.localIp), KeyPath(client, e.peerIp)]
  }

  function CertPaths(client: string, es: seq<Endpoint>): seq<string> {
    if es == [] then [] else CertPaths(client, es[..|es| - 1]) + EndpointPaths(client, es[|es| - 1])
  }

  /** Writes in order, up to the first that fails. */
  function WriteAll(o: Faults, w: World, ws: seq<(string, Content)>): (World, bool) {
    if ws == [] then (w, true)
    else
      var (w1, ok) := WriteAll(o, w, ws[..|ws| - 1]);
      if !ok then (w1, false) else WriteFile(o, w1, ws[|ws| - 1].0, ws[|ws| - 1].1)
  }

  /** Removals in order, up to the first that fails. */
  function RemoveSeq(o: Faults, w: World, paths: seq<string>): (World, bool) {
    if paths == [] then (w, true)
    else
      var (w1, ok) := RemoveSeq(o, w, paths[..|paths| - 1]);
      if !ok then (w1, false) else Remove(o, w1, paths[|paths| - 1])
  }

  lemma {:induction false} WriteAllStops(o: Faults, w: World, a: seq<(string, Content)>, b: seq<(string, Content)>)
    ensures WriteAll(o, w, a + b) ==
      if WriteAll(o, w, a).1 then WriteAll(o, WriteAll(o, w, a).0, b) else WriteAll(o, w, a)
  {
    if b == [] {
      assert a + b == a;
    } else {
      assert (a + b)[..|a + b| - 1] == a + b[..|b| - 1];
      WriteAllStops(o, w, a, b[..|b| - 1]);
    }
  }

  lemma {:induction false} RemoveSeqStops(o: Faults, w: World, a: seq<string>, b: seq<string>)
    ensures RemoveSeq(o, w, a + b) ==
      if RemoveSeq(o, w, a).1 then RemoveSeq(o, RemoveSeq(o, w, a).0, b) else RemoveSeq(o, w, a)
  {
    if b == [] {
      assert a + b == a;
    } else {
      assert (a + b)[..|a + b| - 1] == a + b[..|b| - 1];
      RemoveSeqStops(o, w, a, b[..|b| - 1]);
    }
  }

  datatype Outcome = Done | Failed | Crashed

  /** Reading the flag of a VRF that never had one is a nil dereference. */
  function ShouldDoFrr(v: Vrf): Option<bool> {
    match v.ospf
    case None => None
    case Some(ospf) => Some(ospf || exists i :: 0 <= i < |v.endpoints| && v.endpoints[i].bgp)
  }

  function PeerIps(es: seq<Endpoint>): seq<string> {
    seq(|es|, i requires 0 <= i < |es| => es[i].peerIp)
  }

  function VlanIds(vlans: seq<Vlan>): seq<nat> {
    seq(|vlans|, i requires 0 <= i < |vlans| => vlans[i].vlan)
  }

  function FrrCommands(v: Vrf): seq<FrrCommand> {
    [RouterBgp(v.localAs, v.id, PeerIps(v.endpoints))]
    + if v.ospf == Some(true) then [RouterOspf(v.id, VlanIds(v.vlans))] else []
  }

  /** GenerateConfigs after the strongSwan file: environment, FRR, reloads. */
  function GenerateRest(o: Faults, w: World, v: Vrf): (World, Outcome) {
    match Environ(v)
    case None => (w, Failed)
    case Some(env) =>
      var (w1, ok1) := WriteFile(o, w, IniPath(v.id), Ini(v.clientName, env));
      if !ok1 then (w1, Failed)
      else
        match ShouldDoFrr(v)
        case None => (w1, Crashed)
        case Some(frr) =>
          var (w2, ok2) := if frr then StoreFrrConfig(o, w1, FrrCommands(v)) else (w1, true);
          if !ok2 then (w2, Failed)
          else
            var (w3, ok3) := ReloadSupervisor(o, w2);
            if !ok3 then (w3, Failed)
            else
              var (w4, ok4) := ReloadStrongswan(o, w3);
              (w4, if ok4 then Done else Failed)
  }

  function GenerateConfigs(o: Faults, w: World, v: Vrf): (World, Outcome) {
    var (w1, ok1) := WriteAll(o, w, CertWrites(v.clientName, v.endpoints));
    if !ok1 then (w1, Failed)
    else
      var (w2, ok2) := WriteFile(o, w1, ConfPath(v.id), ConfContent(v));
      if !ok2 then (w2, Failed) else GenerateRest(o, w2, v)
  }

  /** The calls of a deletion before the certificates. Every call is made, whatever the
      ones before it returned. */
  function DeleteBeforeCerts(o: Faults, w: World, v: Vrf): (World, bool) {
    var (w1, ok1) := RemoveAll(o, w, IniPath(v.id));
    var (w2, ok2) := RemoveAll(o, w1, ConfPath(v.id));
    var (w3, ok3) := StoreFrrConfig(o, w2, [NoRouterBgp(v.localAs, v.id)]);
    var (w4, ok4) := ReloadStrongswan(o, w3);
    var (w5, ok5) := ReloadSupervisor(o, w4);
    (w5, ok1 && ok2 && ok3 && ok4 && ok5)
  }

  function DeleteConfigs(o: Faults, w: World, v: Vrf): (World, bool) {
    var (w1, ok1) := DeleteBeforeCerts(o, w, v);
    var (w2, ok2) := RemoveSeq(o, w1, CertPaths(v.clientName, v.endpoints));
    (w2, ok1 && ok2)
  }

  /** The host with its file system, its FRR daemon and its faults. */
  class Host {
    const o: Faults
    var files: map<string, Content>
    var swan: map<string, Content>
    var programs: map<string, Content>
    var frr: Frr
    var tick: nat

    constructor (o: Faults)
      ensures this.o == o && View() == INITIAL_WORLD
    {
      this.o, frr, tick := o, Frr(map[], {}), 0;
      files, swan, programs := VTYSH_ONLY, VTYSH_ONLY, VTYSH_ONLY;
    }

    function View(): World
      reads this
    {
      World(files, swan, programs, frr, tick)
    }

    method Write(path: string, content: Content) returns (ok: bool)
      modifies this
      ensures (View(), ok) == WriteFile(o, old(View()), path, content)
    {
      ok := !o(tick);
      tick := tick + 1;
      if ok { files := files[path := content]; }
    }

    method Erase(path: string) returns (ok: bool)
      modifies this
      ensures (View(), ok) == RemoveAll(o, old(View()), path)
    {
      ok := !o(tick);
      tick := tick + 1;
      if ok { files := files - {path}; }
    }

    method Unlink(path: string) returns (ok: bool)
      modifies this
      ensures (View(), ok) == Remove(o, old(View()), path)
    {
      ok := !o(tick) && path in files;
      tick := tick + 1;
      if ok { files := files - {path}; }
    }

    method RestartStrongswan() returns (ok: bool)
      modifies this
      ensures (View(), ok) == ReloadStrongswan(o, old(View()))
    {
      ok := !o(tick);
      tick := tick + 1;
      if ok { swan := files; }
    }

    method UpdateSupervisor() returns (ok: bool)
      modifies this
      ensures (View(), ok) == ReloadSupervisor(o, old(View()))
    {
      ok := !o(tick);
      tick := tick + 1;
      if ok { programs := files; }
    }

    method RestartVtysh() returns (ok: bool)
      modifies this
      ensures (View(), ok) == ReloadVtysh(o, old(View()))
    {
      ok := !o(tick);
      tick := tick + 1;
      if ok && VTYSH in files && files[VTYSH].Vtysh? { frr := RunCommands(frr, files[VTYSH].commands); }
    }
  }

  class Generator {
    const host: Host

    constructor (host: Host)
      ensures this.host == host
    {
      this.host := host;
    }

    method SaveCerts(v: Vrf) returns (ok: bool)
      modifies host
      ensures (host.View(), ok) == WriteAll(host.o, old(host.View()), CertWrites(v.clientName, v.endpoints))
    {
      var es := v.endpoints;
      ghost var w0 := host.View();
      for i := 0 to |es|
        invariant (host.View(), true) == WriteAll(host.o, w0, CertWrites(v.clientName, es[..i]))
      {
        assert es[..i + 1][..i] == es[..i];
        ghost var before, mine := CertWrites(v.clientName, es[..i]), EndpointWrites(v.clientName, es[i]);
        WriteAllStops(host.o, w0, before, mine);
        if !es[i].IsCerts() {
          assert before + mine == before;
          continue;
        }
        ok := SaveEndpoint(v.clientName, es[i]);
        if !ok {
          CertWritesPrefix(v.clientName, es, i + 1);
          ghost var rest :| CertWrites(v.clientName, es) == before + mine + rest;
          WriteAllStops(host.o, w0, before + mine, rest);
          return;
        }
      }
      assert es[..|es|] == es;
      return true;
    }

    method SaveEndpoint(client: string, e: Endpoint) returns (ok: bool)
      requires e.IsCerts()
      modifies host
      ensures (host.View(), ok) == WriteAll(host.o, old(host.View()), EndpointWrites(client, e))
    {
      ghost var w0, ws := host.View(), EndpointWrites(client, e);
      assert ws == ws[..1] + ws[1..];
      assert WriteAll(host.o, w0, ws[..1]) == WriteFile(host.o, w0, ws[0].0, ws[0].1) by { assert ws[..1][..0] == []; }
      WriteAllStops(host.o, w0, ws[..1], ws[1..]);
      assert ws[..2][..1] == ws[..1];
      ok := host.Write(CertPath(client, e.peerIp), Pem(e.auth.remoteCert));
      if !ok { return; }
      ok := host.Write(CertPath(client, e.localIp), Pem(e.auth.localCert));
      if !ok { return; }
      ok := host.Write(KeyPath(client, e.peerIp), Pem(e.auth.privateKey));
    }

    method DeleteCerts(v: Vrf) returns (ok: bool)
      modifies host
      ensures (host.View(), ok) == RemoveSeq(host.o, old(host.View()), CertPaths(v.clientName, v.endpoints))
    {
      var es := v.endpoints;
      ghost var w0 := host.View();
      for i := 0 to |es|
        invariant (host.View(), true) == RemoveSeq(host.o, w0, CertPaths(v.clientName, es[..i]))
      {
        assert es[..i + 1][..i] == es[..i];
        ghost var before, mine := CertPaths(v.clientName, es[..i]), EndpointPaths(v.clientName, es[i]);
        RemoveSeqStops(host.o, w0, before, mine);
        if !es[i].IsCerts() {
          assert before + mine == before;
          continue;
        }
        ok := RemoveFiles(EndpointPaths(v.clientName, es[i]));
        if !ok {
          CertPathsPrefix(v.clientName, es, i + 1);
          ghost var rest :| CertPaths(v.clientName, es) == before + mine + rest;
          RemoveSeqStops(host.o, w0, before + mine, rest);
          return;
        }
      }
      assert es[..|es|] == es;
      return true;
    }

    method RemoveFiles(filenames: seq<string>) returns (ok: bool)
      modifies host
      ensures (host.View(), ok) == RemoveSeq(host.o, old(host.View()), filenames)
    {
      ghost var w0 := host.View();
      for i := 0 to |filenames|
        invariant (host.View(), true) == RemoveSeq(host.o, w0, filenames[..i])
      {
        assert filenames[..i + 1][..i] == filenames[..i];
        ok := host.Unlink(filenames[i]);
        if !ok {
          assert filenames == filenames[..i + 1] + filenames[i + 1..];
          RemoveSeqStops(host.o, w0, filenames[..i + 1], filenames[i + 1..]);
          return;
        }
      }
      assert filenames[..|filenames|] == filenames;
      return true;
    }

    method StoreFrr(cs: seq<FrrCommand>) returns (ok: bool)
      modifies host
      ensures (host.View(), ok) == StoreFrrConfig(host.o, old(host.View()), cs)
    {
      ok := host.Write(VTYSH, Vtysh(cs));
      if ok { ok := host.RestartVtysh(); }
    }

    method Generate(v: Vrf) returns (r: Outcome)
      modifies host
      ensures (host.View(), r) == GenerateConfigs(host.o, old(host.View()), v)
    {
      var ok := SaveCerts(v);
      if !ok { return Failed; }
      ok := host.Write(ConfPath(v.id), ConfContent(v));
      if !ok { return Failed; }
      var env := ExecuteSupervisorTemplate(v);
      if env.None? { return Failed; }
      ok := host.Write(IniPath(v.id), Ini(v.clientName, env.value));
      if !ok { return Failed; }
      if v.ospf.None? { return Crashed; }
      if v.ospf.value || exists i :: 0 <= i < |v.endpoints| && v.endpoints[i].bgp {
        ok := StoreFrr(FrrCommands(v));
        if !ok { return Failed; }
      }
      ok := host.UpdateSupervisor();
      if !ok { return Failed; }
      ok := host.RestartStrongswan();
      r := if ok then Done else Failed;
    }

    method DeleteAll(v: Vrf) returns (ok: bool)
      modifies host
      ensures (host.View(), ok) == DeleteConfigs(host.o, old(host.View()), v)
    {
      var ok1 := host.Erase(IniPath(v.id));
      var ok2 := host.Erase(ConfPath(v.id));
      var ok3 := StoreFrr([NoRouterBgp(v.localAs, v.id)]);
      var ok4 := host.RestartStrongswan();
      var ok5 := host.UpdateSupervisor();
      var ok6 := DeleteCerts(v);
      ok := ok1 && ok2 && ok3 && ok4 && ok5 && ok6;
    }
  }

  lemma {:induction false} CertWritesPrefix(client: string, es: seq<Endpoint>, k: nat)
    requires k <= |es|
    ensures exists rest :: CertWrites(client, es) == CertWrites(client, es[..k]) + rest
    decreases |es|
  {
    if k == |es| {
      assert es[..k] == es && CertWrites(client, es) == CertWrites(client, es[..k]) + [];
    } else {
      var front := es[..|es| - 1];
      CertWritesPrefix(client, front, k);
      assert front[..k] == es[..k];
      var rest :| CertWrites(client, front) == CertWrites(client, es[..k]) + rest;
      assert CertWrites(client, es) == CertWrites(client, es[..k]) + (rest + EndpointWrites(client, es[|es| - 1]));
    }
  }

  lemma {:induction false} CertPathsPrefix(client: string, es: seq<Endpoint>, k: nat)
    requires k <= |es|
    ensures exists rest :: CertPaths(client, es) == CertPaths(client, es[..k]) + rest
    decreases |es|
  {
    if k == |es| {
      assert es[..k] == es && CertPaths(client, es) == CertPaths(client, es[..k]) + [];
    } else {
      var front := es[..|es| - 1];
      CertPathsPrefix(client, front, k);
      assert front[..k] == es[..k];
      var rest :| CertPaths(client, front) == CertPaths(client, es[..k]) + rest;
      assert CertPaths(client, es) == CertPaths(client, es[..k]) + (rest + EndpointPaths(client, es[|es| - 1]));
    }
  }
}
