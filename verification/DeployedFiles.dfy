/** What is in the files of a deployed VRF, spelled out from its row. */
module DeployedFiles {
  import opened Text
  import opened Crypto
  import opened Types
  import opened SupervisorEnv
  import opened SoftwareGenerator
  import opened DeploymentProofs
  import opened Lifecycle
  import opened LifecycleProofs
  import opened LifecycleRuns
  import opened Compensation
  import opened StoredRows
  import Daemons

  /** The last write to a path decides. */
  lemma {:induction false} LastWriteStays(ws: seq<(string, Content)>, i: nat)
    requires i < |ws| && forall j :: i < j < |ws| ==> ws[j].0 != ws[i].0
    ensures ws[i].0 in PutAll(map[], ws) && PutAll(map[], ws)[ws[i].0] == ws[i].1
    decreases |ws|
  {
    if i < |ws| - 1 {
      var front := ws[..|ws| - 1];
      assert front[i] == ws[i] && forall j :: 0 <= j < |front| ==> front[j] == ws[j];
      LastWriteStays(front, i);
    }
  }

  lemma FilesDistinct(v: Vrf, i: nat, j: nat)
    requires i < j < |FileWrites(v)| && NoDup(CertPaths(v.clientName, v.endpoints))
    ensures FileWrites(v)[i].0 != FileWrites(v)[j].0
  {
    var paths, ws := CertPaths(v.clientName, v.endpoints), FileWrites(v);
    SamePathOrder(v.clientName, v.endpoints);
    if j < |paths| {
      assert paths[i] != paths[j];
    } else if i < |paths| {
      LastFilesApart(v, i);
    } else {
      PathMarks("", "", v.id);
    }
  }

  /** So every file of a deployment holds what was written to it. */
  lemma WrittenAt(v: Vrf, i: nat)
    requires i < |FileWrites(v)| && NoDup(CertPaths(v.clientName, v.endpoints))
    ensures FileWrites(v)[i].0 in PutAll(map[], FileWrites(v))
    ensures PutAll(map[], FileWrites(v))[FileWrites(v)[i].0] == FileWrites(v)[i].1
  {
    forall j | i < j < |FileWrites(v)| ensures FileWrites(v)[j].0 != FileWrites(v)[i].0 { FilesDistinct(v, i, j); }
    LastWriteStays(FileWrites(v), i);
  }

  /** The peer's file holds the remote certificate, the local one's the local certificate,
      and the key goes by the peer. */
  lemma {:induction false} CertWritesAt(client: string, es: seq<Endpoint>, i: nat) returns (h: nat)
    requires i < |es| && es[i].auth.kind == "certs"
    ensures h + 2 < |CertWrites(client, es)|
    ensures CertWrites(client, es)[h] == (X509Text(client, es[i].peerIp), Pem(es[i].auth.remoteCert))
    ensures CertWrites(client, es)[h + 1] == (X509Text(client, es[i].localIp), Pem(es[i].auth.localCert))
    ensures CertWrites(client, es)[h + 2] == (RsaText(client, es[i].peerIp), Pem(es[i].auth.privateKey))
    decreases |es|
  {
    var front, last := es[..|es| - 1], es[|es| - 1];
    if i < |front| {
      h := CertWritesAt(client, front, i);
    } else {
      h := |CertWrites(client, front)|;
      PathTexts(client, last.peerIp, 0);
      PathTexts(client, last.localIp, 0);
    }
  }

  function X509Text(client: string, ip: string): string { "/opt/ipsec/x509/" + client + "-" + ip + ".pem" }

  function RsaText(client: string, ip: string): string { "/opt/ipsec/rsa/" + client + "-" + ip + ".key.pem" }

  function ConfText(id: nat): string { "/opt/ipsec/conf/vrf" + Decimal(id) + ".conf" }

  function IniText(id: nat): string { "/opt/super_net/vrf" + Decimal(id) + ".ini" }

  lemma PathTexts(client: string, ip: string, id: nat)
    ensures CertPath(client, ip) == X509Text(client, ip) && KeyPath(client, ip) == RsaText(client, ip)
    ensures ConfPath(id) == ConfText(id) && IniPath(id) == IniText(id)
  {
    Together("/opt/ipsec/x509/", client, "-", ip, ".pem");
    Together("/opt/ipsec/rsa/", client, "-", ip, ".key.pem");
    assert "/opt/ipsec/conf/" + "vrf" == "/opt/ipsec/conf/vrf";
    assert "/opt/super_net/" + "vrf" == "/opt/super_net/vrf";
    assert "/opt/ipsec/conf/" + ("vrf" + Decimal(id)) == "/opt/ipsec/conf/" + "vrf" + Decimal(id);
    assert "/opt/super_net/" + ("vrf" + Decimal(id)) == "/opt/super_net/" + "vrf" + Decimal(id);
  }

  lemma Together(a: string, b: string, c: string, d: string, e: string)
    ensures a + (b + c + d) + e == a + b + c + d + e
  {
    assert a + (b + c + d) == a + b + c + d;
  }

  /** n hyphens. */
  function Hyphens(n: nat): string { seq(n, _ => '-') }

  /** The text of a list of proposals: joined by hyphens, and of every run of hyphens half,
      rounded up, is left. */
  lemma CryptoText(crypto: seq<string>)
    ensures ConvertToString(crypto) == CollapseDashes(Join(crypto, "-"))
    ensures (forall i :: 0 <= i < |crypto| ==> crypto[i] != "" && '-' !in crypto[i]) ==> ConvertToString(crypto) == Join(crypto, "-")
  {
    if forall i :: 0 <= i < |crypto| ==> crypto[i] != "" && '-' !in crypto[i] { JoinedStays(crypto); }
  }

  lemma CollapseOne(rest: string)
    requires rest == "" || rest[0] != '-'
    ensures CollapseDashes(['-'] + rest) == ['-'] + CollapseDashes(rest)
  {
    assert (['-'] + rest)[1..] == rest;
  }

  lemma CollapseTwo(rest: string)
    ensures CollapseDashes(['-', '-'] + rest) == ['-'] + CollapseDashes(rest)
  {
    assert (['-', '-'] + rest)[2..] == rest;
  }

  lemma HyphensCons(n: nat)
    ensures Hyphens(n + 1) == ['-'] + Hyphens(n)
    ensures Hyphens(n + 2) == ['-', '-'] + Hyphens(n)
  {
  }

  lemma {:induction false} HyphensHalved(m: nat, rest: string)
    requires rest == "" || rest[0] != '-'
    ensures CollapseDashes(Hyphens(2 * m) + rest) == Hyphens(m) + CollapseDashes(rest)
    ensures CollapseDashes(Hyphens(2 * m + 1) + rest) == Hyphens(m + 1) + CollapseDashes(rest)
  {
    if m == 0 {
      assert Hyphens(0) + rest == rest && Hyphens(0) + CollapseDashes(rest) == CollapseDashes(rest);
      HyphensCons(0);
      assert Hyphens(1) == ['-'];
      CollapseOne(rest);
    } else {
      HyphensHalved(m - 1, rest);
      OneMorePair(2 * m - 2, m - 1, rest);
      OneMorePair(2 * m - 1, m, rest);
    }
  }

  lemma OneMorePair(n: nat, m: nat, rest: string)
    requires CollapseDashes(Hyphens(n) + rest) == Hyphens(m) + CollapseDashes(rest)
    ensures CollapseDashes(Hyphens(n + 2) + rest) == Hyphens(m + 1) + CollapseDashes(rest)
  {
    HyphensCons(n);
    HyphensCons(m);
    PairInFront(Hyphens(n), rest, Hyphens(m), CollapseDashes(rest));
  }

  lemma PairInFront(a: string, rest: string, b: string, rest': string)
    requires CollapseDashes(a + rest) == b + rest'
    ensures CollapseDashes(['-', '-'] + a + rest) == ['-'] + b + rest'
  {
    CollapseTwo(a + rest);
    Grouped(['-', '-'], a, rest);
    Grouped(['-'], b, rest');
  }

  lemma Grouped(a: string, b: string, c: string)
    ensures a + b + c == a + (b + c)
  {
  }

  lemma CollapseOther(c: char, rest: string)
    requires c != '-'
    ensures CollapseDashes([c] + rest) == [c] + CollapseDashes(rest)
  {
    assert ([c] + rest)[1..] == rest;
  }

  lemma {:induction false} PieceStays(piece: string, rest: string)
    requires '-' !in piece
    ensures CollapseDashes(piece + rest) == piece + CollapseDashes(rest)
  {
    if piece == "" {
      assert piece + rest == rest && piece + CollapseDashes(rest) == CollapseDashes(rest);
    } else {
      var c, tail := piece[0], piece[1..];
      PieceStays(tail, rest);
      CollapseOther(c, tail + rest);
      assert piece + rest == [c] + (tail + rest);
      assert [c] + (tail + CollapseDashes(rest)) == piece + CollapseDashes(rest);
    }
  }

  lemma {:induction false} JoinedStays(parts: seq<string>)
    requires forall i :: 0 <= i < |parts| ==> parts[i] != "" && '-' !in parts[i]
    ensures CollapseDashes(Join(parts, "-")) == Join(parts, "-")
    ensures parts != [] ==> Join(parts, "-") != "" && Join(parts, "-")[0] != '-'
  {
    if |parts| == 1 {
      PieceStays(parts[0], "");
      assert parts[0] + "" == parts[0];
    } else if |parts| > 1 {
      var tail := Join(parts[1..], "-");
      JoinedStays(parts[1..]);
      assert parts[0] + "-" + tail == parts[0] + ("-" + tail);
      PieceStays(parts[0], "-" + tail);
      assert Hyphens(1) == "-";
      HyphensHalved(0, tail);
    }
  }

  /** Every endpoint with certificates has its three files. */
  predicate CertsIn(files: map<string, Content>, client: string, es: seq<Endpoint>) {
    forall i :: 0 <= i < |es| && es[i].auth.kind == "certs" ==> CertIn(files, client, es[i])
  }

  predicate CertIn(files: map<string, Content>, client: string, e: Endpoint) {
    && X509Text(client, e.peerIp) in files && files[X509Text(client, e.peerIp)] == Pem(e.auth.remoteCert)
    && X509Text(client, e.localIp) in files && files[X509Text(client, e.localIp)] == Pem(e.auth.localCert)
    && RsaText(client, e.peerIp) in files && files[RsaText(client, e.peerIp)] == Pem(e.auth.privateKey)
  }

  /** The configuration file has the client's name, phase 1 and phase 2 in that order, and
      the endpoints in the clear; the environment file describes the VRF. */
  predicate ConfIn(files: map<string, Content>, row: Vrf, es: seq<Endpoint>) {
    && ConfText(row.id) in files && files[ConfText(row.id)].Conf?
    && var conf := files[ConfText(row.id)];
       && conf.clientName == row.clientName && conf.endpoints == es
       && conf.crypto1 == CollapseDashes(Join(row.cryptoPh1, "-")) && conf.crypto2 == CollapseDashes(Join(row.cryptoPh2, "-"))
  }

  predicate IniIn(files: map<string, Content>, row: Vrf, es: seq<Endpoint>) {
    && IniText(row.id) in files && files[IniText(row.id)].Ini?
    && files[IniText(row.id)].program == row.clientName && DescribesVrf(files[IniText(row.id)].env, row.(endpoints := es))
  }

  lemma FileAt(k: Keys, row: Vrf, files: map<string, Content>, i: nat)
    requires RowGood(k, row.id, row) && row.id != HARDWARE_VRF_ID && HasFiles(k, row, files)
    requires i < |FileWrites(Unseal(k, row).value)|
    ensures var (p, c) := FileWrites(Unseal(k, row).value)[i]; p in files && files[p] == c
  {
    var plain := Unseal(k, row).value;
    PlainUses(k, row, files);
    PlainPaths(k, row);
    AddressesDashFree(row);
    DistinctPaths(row.clientName, row.endpoints);
    WrittenAt(plain, i);
    assert Writes(FileWrites(plain), FileWrites(plain)[i].0);
    FileWritesPaths(plain, FileWrites(plain)[i].0);
  }

  lemma CertFilesAre(k: Keys, row: Vrf, files: map<string, Content>)
    requires RowGood(k, row.id, row) && row.id != HARDWARE_VRF_ID && HasFiles(k, row, files)
    ensures CertsIn(files, row.clientName, Unseal(k, row).value.endpoints)
  {
    var plain := Unseal(k, row).value;
    PlainShape(k, row);
    forall i | 0 <= i < |plain.endpoints| && plain.endpoints[i].auth.kind == "certs"
      ensures CertIn(files, row.clientName, plain.endpoints[i])
    {
      var h := CertWritesAt(plain.clientName, plain.endpoints, i);
      FileAt(k, row, files, h);
      FileAt(k, row, files, h + 1);
      FileAt(k, row, files, h + 2);
    }
  }

  lemma OtherFilesAre(k: Keys, row: Vrf, files: map<string, Content>)
    requires RowGood(k, row.id, row) && row.id != HARDWARE_VRF_ID && HasFiles(k, row, files)
    ensures ConfIn(files, row, Unseal(k, row).value.endpoints) && IniIn(files, row, Unseal(k, row).value.endpoints)
  {
    var plain := Unseal(k, row).value;
    var n := |CertWrites(plain.clientName, plain.endpoints)|;
    PlainShape(k, row);
    PlainPaths(k, row);
    SameAddresses(row, plain);
    EnvironmentRoundTrip(plain);
    FileAt(k, row, files, n);
    FileAt(k, row, files, n + 1);
    PathTexts("", "", row.id);
    CryptoText(row.cryptoPh1);
    CryptoText(row.cryptoPh2);
  }

  /** Over every run without faults the files of every active software row are the row's,
      rendered from the endpoints in the clear. */
  lemma RunFiles(k: Keys, o: Faults, ops: seq<Op>, id: nat)
    requires GoodKeys(k) && NoFaults(o) && RunGood(k, o, ops)
    requires var rows := Run(k, o, ops).rows; id in rows && id != 1 && rows[id].active == Some(true)
    ensures var row, files := Run(k, o, ops).rows[id], Run(k, o, ops).world.files;
      && row.id == id && Unseal(k, row).Ok?
      && var es := Unseal(k, row).value.endpoints;
         CertsIn(files, row.clientName, es) && ConfIn(files, row, es) && IniIn(files, row, es)
  {
    RunConsistent(k, o, ops);
    StateFiles(k, Run(k, o, ops), id);
  }

  lemma StateFiles(k: Keys, s: App, id: nat)
    requires Consistent(k, s) && id in s.rows && id != HARDWARE_VRF_ID && IsActive(s.rows[id])
    ensures RowGood(k, id, s.rows[id])
    ensures var es := Unseal(k, s.rows[id]).value.endpoints;
      CertsIn(s.world.files, s.rows[id].clientName, es) && ConfIn(s.world.files, s.rows[id], es) && IniIn(s.world.files, s.rows[id], es)
  {
    assert RowGood(k, id, s.rows[id]) && HasFiles(k, s.rows[id], s.world.files);
    CertFilesAre(k, s.rows[id], s.world.files);
    OtherFilesAre(k, s.rows[id], s.world.files);
  }

  /** Without faults an accepted update that leaves a software VRF active deploys it as the
      request over the old row. */
  lemma UpdateDeploys(k: Keys, o: Faults, s: App, op: Op)
    requires GoodKeys(k) && Consistent(k, s) && NoFaults(o) && op.UpdateOp? && OpGood(s, op) && Acceptable(s, op)
    requires var id := op.number % 0x1_0000_0000;
      id != 1 && (if op.req.active.Some? then op.req.active else s.rows[id].active) == Some(true)
    ensures var id, s' := op.number % 0x1_0000_0000, UpdateVrf(k, o, s, op).0;
      && id in s'.rows && Unseal(k, s'.rows[id]).Ok?
      && var row, files := Unseal(k, s'.rows[id]).value, s'.world.files;
         && row.id == id && Overlaid(s.rows[id], op.req, row) && RequestedEndpoints(op.req.endpoints, op.ids, id, row.endpoints)
         && CertsIn(files, row.clientName, row.endpoints) && ConfIn(files, row, row.endpoints) && IniIn(files, row, row.endpoints)
  {
    UpdateStores(k, o, s, op);
    StepConsistent(k, o, s, op);
    StateFiles(k, UpdateVrf(k, o, s, op).0, op.number % 0x1_0000_0000);
  }

  /** The same of an accepted create of an active one: it is deployed as requested. */
  lemma CreateDeploys(k: Keys, o: Faults, s: App, op: Op)
    requires GoodKeys(k) && Consistent(k, s) && NoFaults(o) && op.CreateOp? && OpGood(s, op) && AcceptableCreate(op)
    requires op.newId != 1 && op.req.active == Some(true)
    ensures var id, s' := op.newId, CreateVrf(k, o, s, op).0;
      && id in s'.rows && Unseal(k, s'.rows[id]).Ok?
      && var row, files := Unseal(k, s'.rows[id]).value, s'.world.files;
         && row == op.req.(id := id, endpoints := row.endpoints) && RequestedEndpoints(op.req.endpoints, op.ids, id, row.endpoints)
         && CertsIn(files, row.clientName, row.endpoints) && ConfIn(files, row, row.endpoints) && IniIn(files, row, row.endpoints)
  {
    CreateStores(k, o, s, op);
    StepConsistent(k, o, s, op);
    StateFiles(k, CreateVrf(k, o, s, op).0, op.newId);
  }

  /** The commands that FRR gets for a VRF: one BGP instance with a neighbour per endpoint,
      and OSPF on its VLANs if it has the flag. */
  predicate FrrFor(cs: seq<FrrCommand>, v: Vrf) {
    && |cs| == (if v.ospf == Some(true) then 2 else 1)
    && cs[0].RouterBgp? && cs[0].localAs == v.localAs && cs[0].vrf == v.id && |cs[0].neighbors| == |v.endpoints|
    && (forall i :: 0 <= i < |v.endpoints| ==> cs[0].neighbors[i] == v.endpoints[i].peerIp)
    && (v.ospf == Some(true) ==>
          && cs[1].RouterOspf? && cs[1].vrf == v.id && |cs[1].vlans| == |v.vlans|
          && forall i :: 0 <= i < |v.vlans| ==> cs[1].vlans[i] == v.vlans[i].vlan)
  }

  /** What a deployment without faults leaves in vtysh's file: the commands for the VRF, if
      it has OSPF on or an endpoint that speaks BGP, and else what was there. */
  lemma DeployedVtysh(o: Faults, w: World, v: Vrf)
    requires NoFaults(o) && Environ(v).Some? && v.ospf.Some?
    ensures var files, vtysh := GenerateConfigs(o, w, v).0.files, "/opt/frr/vtysh.conf";
      if v.ospf.value || exists i :: 0 <= i < |v.endpoints| && v.endpoints[i].bgp
      then vtysh in files && files[vtysh].Vtysh? && FrrFor(files[vtysh].commands, v)
      else SameAt(w.files, files, vtysh)
  {
    var certs := CertWrites(v.clientName, v.endpoints);
    var w1 := WriteAll(o, w, certs).0;
    WriteAllNoFaults(o, w, certs);
    CertsOffVtysh(o, w, v);
    PathMarks("", "", v.id);
  }

  lemma CertsOffVtysh(o: Faults, w: World, v: Vrf)
    ensures SameAt(w.files, WriteAll(o, w, CertWrites(v.clientName, v.endpoints)).0.files, VTYSH)
  {
    var certs := CertWrites(v.clientName, v.endpoints);
    var n := WriteAllPrefix(o, w, certs);
    NotVtysh(v);
    CertWritesPaths(v, VTYSH);
    assert forall i :: 0 <= i < n ==> certs[..n][i] == certs[i];
    PutAllEffect(w.files, certs[..n], VTYSH);
  }

  /** And a deletion: the command that takes the VRF's instance down, by its number. */
  lemma DeletedVtysh(o: Faults, w: World, v: Vrf)
    requires NoFaults(o)
    ensures var files, vtysh := DeleteConfigs(o, w, v).0.files, "/opt/frr/vtysh.conf";
      vtysh in files && files[vtysh] == Vtysh([NoRouterBgp(v.localAs, v.id)])
  {
    NotVtysh(v);
    PathMarks("", "", v.id);
    RemoveSeqTouches(o, DeleteBeforeCerts(o, w, v).0, CertPaths(v.clientName, v.endpoints), VTYSH);
  }

  /** After the configuration file is written. */
  lemma RestReloads(o: Faults, w: World, v: Vrf)
    ensures var (w', r) := GenerateRest(o, w, v);
      && (w'.swan == w.swan || w'.programs == w'.files == w'.swan)
      && (w'.programs == w.programs || w'.programs == w'.files)
      && (r == Done ==> w'.programs == w'.files == w'.swan)
  {
    if Environ(v).Some? && ShouldDoFrr(v).Some? {
      var w1 := WriteFile(o, w, IniPath(v.id), Ini(v.clientName, Environ(v).value)).0;
      var w2 := if ShouldDoFrr(v).value then StoreFrrConfig(o, w1, FrrCommands(v)).0 else w1;
      StoreFrrDaemons(o, w1, FrrCommands(v));
      TwoReloads(o, w2);
    }
  }

  lemma TwoReloads(o: Faults, w: World)
    ensures var (w1, ok1) := ReloadSupervisor(o, w);
      w1.files == w.files && w1.swan == w.swan && w1.programs == if ok1 then w.files else w.programs
    ensures var (w1, _) := ReloadSupervisor(o, w);
      var (w2, ok2) := ReloadStrongswan(o, w1);
      w2.files == w.files && w2.programs == w1.programs && w2.swan == if ok2 then w.files else w.swan
  {
  }

  lemma StoreFrrDaemons(o: Faults, w: World, cs: seq<FrrCommand>)
    ensures var w' := StoreFrrConfig(o, w, cs).0; w'.swan == w.swan && w'.programs == w.programs
  {
  }

  /** The daemons read their files after everything is written, supervisord before
      strongSwan. */
  lemma ReloadOrder(o: Faults, w: World, v: Vrf)
    ensures var (w', r) := GenerateConfigs(o, w, v);
      && (w'.swan == w.swan || w'.programs == w'.files == w'.swan)
      && (w'.programs == w.programs || w'.programs == w'.files)
      && (r == Done ==> w'.programs == w'.files == w'.swan)
  {
    var (w1, ok1) := WriteAll(o, w, CertWrites(v.clientName, v.endpoints));
    var (w2, ok2) := WriteFile(o, w1, ConfPath(v.id), ConfContent(v));
    Daemons.WriteAllDaemons(o, w, CertWrites(v.clientName, v.endpoints));
    if ok1 && ok2 { RestReloads(o, w2, v); }
  }
}
