/** What deploying and deleting one software VRF does to the file system, with and
    without faults. */
module DeploymentProofs {
  import opened Text
  import opened Types
  import opened SupervisorEnv
  import opened SoftwareGenerator

  predicate NoDup<T(==)>(s: seq<T>) {
    forall i, j :: 0 <= i < j < |s| ==> s[i] != s[j]
  }

  lemma NoDupAppend<T>(a: seq<T>, b: seq<T>)
    ensures NoDup(a + b) <==> NoDup(a) && NoDup(b) && forall x :: x in a ==> x !in b
  {
    var s := a + b;
    if NoDup(s) {
      forall i, j | 0 <= i < j < |a| ensures a[i] != a[j] { assert s[i] != s[j]; }
      forall i, j | 0 <= i < j < |b| ensures b[i] != b[j] { assert s[|a| + i] != s[|a| + j]; }
      forall x | x in a ensures x !in b {
        var i :| 0 <= i < |a| && a[i] == x;
        forall j | 0 <= j < |b| ensures b[j] != x { assert s[i] != s[|a| + j]; }
      }
    }
    if NoDup(a) && NoDup(b) && forall x :: x in a ==> x !in b {
      forall i, j | 0 <= i < j < |s| ensures s[i] != s[j] {
        if i < |a| <= j { assert a[i] in a && s[j] == b[j - |a|]; }
      }
    }
  }

  /** No address of the VRF holds a dash, as no IP address does. */
  predicate DashFree(v: Vrf) {
    forall i :: 0 <= i < |v.endpoints| ==> '-' !in v.endpoints[i].localIp && '-' !in v.endpoints[i].peerIp
  }

  lemma AddressDashFree(s: string)
    requires s == "" || IsAddress(s)
    ensures '-' !in s
  {
    assert !IsAddressChar('-');
  }

  lemma AddressesDashFree(v: Vrf)
    requires ValidAddresses(v)
    ensures DashFree(v)
  {
    forall i | 0 <= i < |v.endpoints| ensures '-' !in v.endpoints[i].localIp && '-' !in v.endpoints[i].peerIp {
      AddressDashFree(v.endpoints[i].localIp);
      AddressDashFree(v.endpoints[i].peerIp);
    }
  }

  /** The client may hold dashes; the last dash is the one before the address. */
  lemma ClientIpInjective(c: string, ip: string, c': string, ip': string)
    requires '-' !in ip && '-' !in ip' && c + ['-'] + ip == c' + ['-'] + ip'
    ensures c == c' && ip == ip'
  {
    var s := c + ['-'] + ip;
    assert s[|c|] == '-' && s[|c'|] == '-';
    assert forall i :: |c| < i < |s| ==> s[i] == ip[i - |c| - 1];
    assert forall i :: |c'| < i < |s| ==> s[i] == ip'[i - |c'| - 1];
    assert |c| == |c'|;
    assert c == s[..|c|] && ip == s[|c| + 1..];
  }

  lemma AffixInjective(prefix: string, a: string, b: string, suffix: string)
    requires prefix + a + suffix == prefix + b + suffix
    ensures a == b
  {
    var s := prefix + a + suffix;
    assert |a| == |b|;
    assert a == s[|prefix|..|prefix| + |a|];
    assert b == s[|prefix|..|prefix| + |b|];
  }

  lemma CertPathInjective(c: string, ip: string, c': string, ip': string)
    requires '-' !in ip && '-' !in ip'
    ensures CertPath(c, ip) == CertPath(c', ip') ==> c == c' && ip == ip'
    ensures KeyPath(c, ip) == KeyPath(c', ip') ==> c == c' && ip == ip'
  {
    if CertPath(c, ip) == CertPath(c', ip') {
      AffixInjective("/opt/ipsec/x509/", c + ['-'] + ip, c' + ['-'] + ip', ".pem");
      ClientIpInjective(c, ip, c', ip');
    }
    if KeyPath(c, ip) == KeyPath(c', ip') {
      AffixInjective("/opt/ipsec/rsa/", c + ['-'] + ip, c' + ['-'] + ip', ".key.pem");
      ClientIpInjective(c, ip, c', ip');
    }
  }

  lemma IdPathInjective(id: nat, id': nat)
    ensures ConfPath(id) == ConfPath(id') ==> id == id'
    ensures IniPath(id) == IniPath(id') ==> id == id'
  {
    var a, b := "vrf" + Decimal(id), "vrf" + Decimal(id');
    if ConfPath(id) == ConfPath(id') { AffixInjective("/opt/ipsec/conf/", a, b, ".conf"); }
    if IniPath(id) == IniPath(id') { AffixInjective("/opt/super_net/", a, b, ".ini"); }
    if a == b {
      assert a[3..] == Decimal(id) && b[3..] == Decimal(id');
      DecimalInjective(id, id');
    }
  }

  /** The directories tell the kinds of files apart. */
  lemma PathMarks(client: string, ip: string, id: nat)
    ensures |CertPath(client, ip)| > 11 && CertPath(client, ip)[5] == 'i' && CertPath(client, ip)[11] == 'x'
    ensures |KeyPath(client, ip)| > 11 && KeyPath(client, ip)[5] == 'i' && KeyPath(client, ip)[11] == 'r'
    ensures |ConfPath(id)| > 11 && ConfPath(id)[5] == 'i' && ConfPath(id)[11] == 'c'
    ensures |IniPath(id)| > 11 && IniPath(id)[5] == 's'
    ensures VTYSH[5] == 'f'
  {
  }

  /** Every path a VRF's deployment writes or removes. */
  predicate IsPathOf(v: Vrf, p: string) {
    p == ConfPath(v.id) || p == IniPath(v.id) || p in CertPaths(v.clientName, v.endpoints)
  }

  predicate IsCertPath(client: string, es: seq<Endpoint>, p: string) {
    exists i :: 0 <= i < |es| && p in EndpointPaths(client, es[i])
  }

  lemma {:induction false} CertPathsMembers(client: string, es: seq<Endpoint>, p: string)
    ensures p in CertPaths(client, es) <==> IsCertPath(client, es, p)
  {
    if es != [] {
      var front := es[..|es| - 1];
      CertPathsMembers(client, front, p);
      assert forall i :: 0 <= i < |front| ==> front[i] == es[i];
      assert p in CertPaths(client, es) <==> p in CertPaths(client, front) || p in EndpointPaths(client, es[|es| - 1]);
    }
  }

  lemma NotVtysh(v: Vrf)
    ensures !IsPathOf(v, VTYSH)
  {
    PathMarks("", "", v.id);
    CertPathsMembers(v.clientName, v.endpoints, VTYSH);
    forall i | 0 <= i < |v.endpoints| ensures VTYSH !in EndpointPaths(v.clientName, v.endpoints[i]) {
      PathMarks(v.clientName, v.endpoints[i].peerIp, v.id);
      PathMarks(v.clientName, v.endpoints[i].localIp, v.id);
    }
  }

  lemma EndpointPathsDisjoint(c: string, e: Endpoint, c': string, e': Endpoint, p: string)
    requires c != c' && '-' !in e.localIp && '-' !in e.peerIp && '-' !in e'.localIp && '-' !in e'.peerIp
    requires p in EndpointPaths(c, e)
    ensures p !in EndpointPaths(c', e')
  {
    PathMarks(c, e.peerIp, 0);
    PathMarks(c, e.localIp, 0);
    PathMarks(c', e'.peerIp, 0);
    PathMarks(c', e'.localIp, 0);
    CertPathInjective(c, e.peerIp, c', e'.peerIp);
    CertPathInjective(c, e.peerIp, c', e'.localIp);
    CertPathInjective(c, e.localIp, c', e'.peerIp);
    CertPathInjective(c, e.localIp, c', e'.localIp);
  }

  lemma IdPathsApart(client: string, e: Endpoint, id: nat)
    ensures ConfPath(id) !in EndpointPaths(client, e) && IniPath(id) !in EndpointPaths(client, e)
  {
    PathMarks(client, e.peerIp, id);
    PathMarks(client, e.localIp, id);
  }

  lemma NoCert(client: string, es: seq<Endpoint>, id: nat)
    ensures ConfPath(id) !in CertPaths(client, es) && IniPath(id) !in CertPaths(client, es)
  {
    CertPathsMembers(client, es, ConfPath(id));
    CertPathsMembers(client, es, IniPath(id));
    forall i | 0 <= i < |es| ensures ConfPath(id) !in EndpointPaths(client, es[i]) && IniPath(id) !in EndpointPaths(client, es[i]) {
      IdPathsApart(client, es[i], id);
    }
  }

  /** Different ids and different client names: no path in common, whatever the client
      names are. */
  lemma PathsDisjoint(v: Vrf, v': Vrf, p: string)
    requires v.id != v'.id && v.clientName != v'.clientName && DashFree(v) && DashFree(v')
    requires IsPathOf(v, p)
    ensures !IsPathOf(v', p)
  {
    var c, c' := v.clientName, v'.clientName;
    IdPathInjective(v.id, v'.id);
    PathMarks("", "", v.id);
    PathMarks("", "", v'.id);
    CertPathsMembers(c, v.endpoints, p);
    CertPathsMembers(c', v'.endpoints, p);
    forall j | 0 <= j < |v'.endpoints| ensures p !in EndpointPaths(c', v'.endpoints[j]) {
      IdPathsApart(c', v'.endpoints[j], v.id);
      if p in CertPaths(c, v.endpoints) {
        var i :| 0 <= i < |v.endpoints| && p in EndpointPaths(c, v.endpoints[i]);
        EndpointPathsDisjoint(c, v.endpoints[i], c', v'.endpoints[j], p);
      }
    }
    forall i | 0 <= i < |v.endpoints| && p in EndpointPaths(c, v.endpoints[i])
      ensures p != ConfPath(v'.id) && p != IniPath(v'.id)
    {
      IdPathsApart(c, v.endpoints[i], v'.id);
    }
  }

  /** The addresses that certificates are filed under. */
  function CertIps(es: seq<Endpoint>): seq<string> {
    if es == [] then []
    else CertIps(es[..|es| - 1]) + if es[|es| - 1].IsCerts() then [es[|es| - 1].peerIp, es[|es| - 1].localIp] else []
  }

  lemma {:induction false} CertIpsMembers(es: seq<Endpoint>, ip: string)
    ensures ip in CertIps(es) <==> exists i :: 0 <= i < |es| && es[i].IsCerts() && (es[i].peerIp == ip || es[i].localIp == ip)
  {
    if es != [] {
      var front, e := es[..|es| - 1], es[|es| - 1];
      CertIpsMembers(front, ip);
      assert forall i :: 0 <= i < |front| ==> front[i] == es[i];
      assert ip in CertIps(es) <==> ip in CertIps(front) || (e.IsCerts() && (e.peerIp == ip || e.localIp == ip));
    }
  }

  lemma CertPathMember(client: string, es: seq<Endpoint>, ip: string)
    requires '-' !in ip && forall i :: 0 <= i < |es| ==> '-' !in es[i].localIp && '-' !in es[i].peerIp
    ensures CertPath(client, ip) in CertPaths(client, es) <==> ip in CertIps(es)
    ensures KeyPath(client, ip) in CertPaths(client, es) ==> ip in CertIps(es)
  {
    CertIpsMembers(es, ip);
    CertPathsMembers(client, es, CertPath(client, ip));
    CertPathsMembers(client, es, KeyPath(client, ip));
    forall i | 0 <= i < |es|
      ensures CertPath(client, ip) in EndpointPaths(client, es[i]) <==> es[i].IsCerts() && (es[i].peerIp == ip || es[i].localIp == ip)
      ensures KeyPath(client, ip) in EndpointPaths(client, es[i]) ==> es[i].IsCerts() && es[i].peerIp == ip
    {
      PathMarks(client, ip, 0);
      PathMarks(client, es[i].peerIp, 0);
      PathMarks(client, es[i].localIp, 0);
      CertPathInjective(client, ip, client, es[i].peerIp);
      CertPathInjective(client, ip, client, es[i].localIp);
    }
  }

  /** A VRF's certificate paths are pairwise distinct exactly when its certificate
      addresses are. */
  lemma {:induction false} DistinctPaths(client: string, es: seq<Endpoint>)
    requires forall i :: 0 <= i < |es| ==> '-' !in es[i].localIp && '-' !in es[i].peerIp
    ensures NoDup(CertPaths(client, es)) <==> NoDup(CertIps(es))
  {
    if es != [] {
      var front, e := es[..|es| - 1], es[|es| - 1];
      DistinctPaths(client, front);
      NoDupAppend(CertPaths(client, front), EndpointPaths(client, e));
      NoDupAppend(CertIps(front), if e.IsCerts() then [e.peerIp, e.localIp] else []);
      if e.IsCerts() {
        CertPathMember(client, front, e.peerIp);
        CertPathMember(client, front, e.localIp);
        PathMarks(client, e.peerIp, 0);
        PathMarks(client, e.localIp, 0);
        CertPathInjective(client, e.peerIp, client, e.localIp);
        EndpointDistinct(client, e);
        OneDistinct(e.peerIp, e.localIp);
      }
    }
  }

  lemma EndpointDistinct(client: string, e: Endpoint)
    requires e.IsCerts() && '-' !in e.localIp && '-' !in e.peerIp
    ensures NoDup(EndpointPaths(client, e)) <==> e.peerIp != e.localIp
    ensures forall p :: p in EndpointPaths(client, e) <==>
      p == CertPath(client, e.peerIp) || p == CertPath(client, e.localIp) || p == KeyPath(client, e.peerIp)
  {
    PathMarks(client, e.peerIp, 0);
    PathMarks(client, e.localIp, 0);
    CertPathInjective(client, e.peerIp, client, e.localIp);
    var ps := EndpointPaths(client, e);
    assert ps[0] == CertPath(client, e.peerIp) && ps[1] == CertPath(client, e.localIp) && ps[2] == KeyPath(client, e.peerIp);
  }

  lemma OneDistinct(a: string, b: string)
    ensures NoDup([a, b]) <==> a != b
  {
    var s := [a, b];
    assert s[0] == a && s[1] == b;
  }

  /** Certificates are written and removed along the same paths in the same order. */
  lemma {:induction false} SamePathOrder(client: string, es: seq<Endpoint>)
    ensures |CertWrites(client, es)| == |CertPaths(client, es)|
    ensures forall i :: 0 <= i < |CertPaths(client, es)| ==> CertWrites(client, es)[i].0 == CertPaths(client, es)[i]
  {
    if es != [] {
      SamePathOrder(client, es[..|es| - 1]);
    }
  }

  /** The files of a deployment, in the order of writing. */
  function FileWrites(v: Vrf): seq<(string, Content)> {
    CertWrites(v.clientName, v.endpoints) + [(ConfPath(v.id), ConfContent(v))]
    + if Environ(v).Some? then [(IniPath(v.id), Ini(v.clientName, Environ(v).value))] else []
  }

  function PutAll(files: map<string, Content>, ws: seq<(string, Content)>): map<string, Content> {
    if ws == [] then files else PutAll(files, ws[..|ws| - 1])[ws[|ws| - 1].0 := ws[|ws| - 1].1]
  }

  predicate Writes(ws: seq<(string, Content)>, p: string) {
    exists i :: 0 <= i < |ws| && ws[i].0 == p
  }

  lemma {:induction false} PutAllEffect(files: map<string, Content>, ws: seq<(string, Content)>, p: string)
    ensures p in PutAll(files, ws) <==> p in files || Writes(ws, p)
    ensures !Writes(ws, p) && p in files ==> PutAll(files, ws)[p] == files[p]
    ensures Writes(ws, p) ==> p in PutAll(map[], ws) && PutAll(files, ws)[p] == PutAll(map[], ws)[p]
  {
    if ws != [] {
      var front := ws[..|ws| - 1];
      PutAllEffect(files, front, p);
      assert forall i :: 0 <= i < |front| ==> front[i] == ws[i];
      assert Writes(ws, p) <==> Writes(front, p) || ws[|ws| - 1].0 == p;
    }
  }

  lemma {:induction false} WriteAllPrefix(o: Faults, w: World, ws: seq<(string, Content)>) returns (k: nat)
    ensures var (w', ok) := WriteAll(o, w, ws);
      k <= |ws| && w'.files == PutAll(w.files, ws[..k]) && w'.frr == w.frr && (ok <==> k == |ws|)
  {
    k := 0;
    if ws != [] {
      var front := ws[..|ws| - 1];
      k := WriteAllPrefix(o, w, front);
      assert front[..k] == ws[..k];
      if WriteAll(o, w, ws).1 {
        assert front[..k] == front;
        assert ws[..|ws|] == ws;
        k := |ws|;
      }
    }
  }

  function Off(files: map<string, Content>): map<string, Content> { files - {VTYSH} }

  lemma OffPut(files: map<string, Content>, p: string, c: Content)
    ensures Off(files[VTYSH := c]) == Off(files)
  {
  }

  lemma PutAllNext(files: map<string, Content>, ws: seq<(string, Content)>, k: nat)
    requires k < |ws|
    ensures PutAll(files, ws[..k + 1]) == PutAll(files, ws[..k])[ws[k].0 := ws[k].1]
  {
    assert ws[..k + 1][..k] == ws[..k];
  }

  /** After the environment file a deployment touches only vtysh's own file. */
  lemma GenerateRestFiles(o: Faults, w: World, v: Vrf)
    requires Environ(v).Some?
    ensures var (w', r) := GenerateRest(o, w, v);
      var (w1, ok) := WriteFile(o, w, IniPath(v.id), Ini(v.clientName, Environ(v).value));
      Off(w'.files) == Off(w1.files) && (!ok ==> r == Failed)
  {
    var (w1, ok) := WriteFile(o, w, IniPath(v.id), Ini(v.clientName, Environ(v).value));
    OffPut(w1.files, VTYSH, Vtysh(FrrCommands(v)));
  }

  /** From the environment file on, when the first k files are there. */
  lemma RestWritesPrefix(o: Faults, files: map<string, Content>, w: World, v: Vrf, k: nat) returns (k': nat)
    requires k == |CertWrites(v.clientName, v.endpoints)| + 1 && w.files == PutAll(files, FileWrites(v)[..k])
    ensures var (w', r) := GenerateRest(o, w, v);
      && k' <= |FileWrites(v)| && Off(w'.files) == Off(PutAll(files, FileWrites(v)[..k']))
      && (r != Failed ==> k' == |FileWrites(v)|)
  {
    k' := k;
    if Environ(v).Some? {
      GenerateRestFiles(o, w, v);
      if WriteFile(o, w, IniPath(v.id), Ini(v.clientName, Environ(v).value)).1 {
        PutAllNext(files, FileWrites(v), k);
        k' := k + 1;
      }
    }
  }

  /** Wherever a deployment stops, what it has written is a prefix of its files; it
      stops after the last file whenever it succeeds or crashes. */
  lemma GenerateWritesPrefix(o: Faults, w: World, v: Vrf) returns (k: nat)
    ensures var (w', r) := GenerateConfigs(o, w, v);
      && k <= |FileWrites(v)| && Off(w'.files) == Off(PutAll(w.files, FileWrites(v)[..k]))
      && (r != Failed ==> k == |FileWrites(v)|)
  {
    var ws, certs := FileWrites(v), CertWrites(v.clientName, v.endpoints);
    k := WriteAllPrefix(o, w, certs);
    assert ws[..k] == certs[..k];
    var (w1, ok1) := WriteAll(o, w, certs);
    if ok1 {
      PutAllNext(w.files, ws, k);
      var (w2, ok2) := WriteFile(o, w1, ConfPath(v.id), ConfContent(v));
      if ok2 {
        k := RestWritesPrefix(o, w.files, w2, v, k + 1);
      }
    }
  }

  ghost predicate NoFaults(o: Faults) { forall t :: !o(t) }

  lemma {:induction false} WriteAllNoFaults(o: Faults, w: World, ws: seq<(string, Content)>)
    requires NoFaults(o)
    ensures WriteAll(o, w, ws).1
  {
    if ws != [] { WriteAllNoFaults(o, w, ws[..|ws| - 1]); }
  }

  /** Without faults a deployment writes all its files and only a missing OSPF flag
      keeps it from succeeding. */
  lemma GenerateNoFaults(o: Faults, w: World, v: Vrf)
    requires NoFaults(o) && Environ(v).Some?
    ensures GenerateConfigs(o, w, v).1 == if v.ospf.None? then Crashed else Done
    ensures Off(GenerateConfigs(o, w, v).0.files) == Off(PutAll(w.files, FileWrites(v)))
  {
    WriteAllNoFaults(o, w, CertWrites(v.clientName, v.endpoints));
    var k := GenerateWritesPrefix(o, w, v);
    assert FileWrites(v)[..|FileWrites(v)|] == FileWrites(v);
  }

  lemma FileWritesPaths(v: Vrf, p: string)
    ensures Writes(FileWrites(v), p) ==> IsPathOf(v, p)
    ensures Environ(v).Some? && IsPathOf(v, p) ==> Writes(FileWrites(v), p)
  {
    var certs := CertWrites(v.clientName, v.endpoints);
    var conf := [(ConfPath(v.id), ConfContent(v))];
    var ini := if Environ(v).Some? then [(IniPath(v.id), Ini(v.clientName, Environ(v).value))] else [];
    WritesTwo(certs + conf, ini, p);
    WritesTwo(certs, conf, p);
    CertWritesPaths(v, p);
    assert Writes(conf, p) <==> p == ConfPath(v.id) by { assert conf[0].0 == ConfPath(v.id); }
    if Environ(v).Some? { assert ini[0].0 == IniPath(v.id); }
  }

  lemma WritesTwo(a: seq<(string, Content)>, b: seq<(string, Content)>, p: string)
    ensures Writes(a + b, p) <==> Writes(a, p) || Writes(b, p)
  {
    var s := a + b;
    if i :| 0 <= i < |a| && a[i].0 == p { assert s[i].0 == p; }
    if i :| 0 <= i < |b| && b[i].0 == p { assert s[|a| + i].0 == p; }
    if i :| 0 <= i < |s| && s[i].0 == p { assert if i < |a| then a[i].0 == p else b[i - |a|].0 == p; }
  }

  lemma CertWritesPaths(v: Vrf, p: string)
    ensures Writes(CertWrites(v.clientName, v.endpoints), p) <==> p in CertPaths(v.clientName, v.endpoints)
  {
    var certs, paths := CertWrites(v.clientName, v.endpoints), CertPaths(v.clientName, v.endpoints);
    SamePathOrder(v.clientName, v.endpoints);
    if i :| 0 <= i < |paths| && paths[i] == p { assert certs[i].0 == p; }
  }

  predicate SameAt(files: map<string, Content>, files': map<string, Content>, p: string) {
    (p in files <==> p in files') && (p in files ==> files'[p] == files[p])
  }

  /** Deploying a VRF, under any faults, leaves all paths but its own and vtysh's alone. */
  lemma GenerateTouchesOnlyOwn(o: Faults, w: World, v: Vrf, p: string)
    requires !IsPathOf(v, p) && p != VTYSH
    ensures SameAt(w.files, GenerateConfigs(o, w, v).0.files, p)
  {
    var k := GenerateWritesPrefix(o, w, v);
    var ws := FileWrites(v);
    FileWritesPaths(v, p);
    assert forall i :: 0 <= i < k ==> ws[..k][i] == ws[i];
    PutAllEffect(w.files, ws[..k], p);
    var f, g := PutAll(w.files, ws[..k]), GenerateConfigs(o, w, v).0.files;
    assert p in f <==> p in Off(f);
    assert p in g <==> p in Off(g);
  }

  lemma {:induction false} RemoveSeqTouches(o: Faults, w: World, paths: seq<string>, p: string)
    requires p !in paths
    ensures SameAt(w.files, RemoveSeq(o, w, paths).0.files, p) && RemoveSeq(o, w, paths).0.frr == w.frr
  {
    if paths != [] { RemoveSeqTouches(o, w, paths[..|paths| - 1], p); }
  }

  lemma BeforeCertsTouches(o: Faults, w: World, v: Vrf, p: string)
    requires p != ConfPath(v.id) && p != IniPath(v.id) && p != VTYSH
    ensures SameAt(w.files, DeleteBeforeCerts(o, w, v).0.files, p)
  {
    var (w1, _) := RemoveAll(o, w, IniPath(v.id));
    var (w2, _) := RemoveAll(o, w1, ConfPath(v.id));
    assert SameAt(w.files, w2.files, p);
    StoreFrrTouches(o, w2, [NoRouterBgp(v.localAs, v.id)], p);
  }

  lemma StoreFrrTouches(o: Faults, w: World, cs: seq<FrrCommand>, p: string)
    requires p != VTYSH
    ensures SameAt(w.files, StoreFrrConfig(o, w, cs).0.files, p)
  {
  }

  /** Deleting a VRF, under any faults, leaves all paths but its own and vtysh's alone. */
  lemma DeleteTouchesOnlyOwn(o: Faults, w: World, v: Vrf, p: string)
    requires !IsPathOf(v, p) && p != VTYSH
    ensures SameAt(w.files, DeleteConfigs(o, w, v).0.files, p)
  {
    BeforeCertsTouches(o, w, v, p);
    RemoveSeqTouches(o, DeleteBeforeCerts(o, w, v).0, CertPaths(v.clientName, v.endpoints), p);
  }

  /** Exactly the first m of the paths are there. */
  predicate PresentPrefix(files: map<string, Content>, paths: seq<string>, m: nat) {
    m <= |paths| && forall i :: 0 <= i < |paths| ==> (paths[i] in files <==> i < m)
  }

  /** Removal stops at the first missing path, and then nothing of a written prefix is
      left. */
  lemma {:induction false} RemovePrefix(o: Faults, w: World, paths: seq<string>, m: nat)
    requires NoFaults(o) && NoDup(paths) && PresentPrefix(w.files, paths, m)
    ensures var (w', ok) := RemoveSeq(o, w, paths);
      w'.files == w.files - (set p | p in paths) && w'.frr == w.frr && (ok <==> m == |paths|)
  {
    if paths != [] {
      var front, last := paths[..|paths| - 1], paths[|paths| - 1];
      assert forall i :: 0 <= i < |front| ==> front[i] == paths[i];
      RemovePrefix(o, w, front, if m <= |front| then m else |front|);
      assert (set p | p in paths) == (set p | p in front) + {last};
      assert last !in front;
      if m < |paths| { assert last !in w.files; }
    } else {
      assert w.files - (set p | p in paths) == w.files;
    }
  }

  /** When all its certificates are there, deleting them succeeds exactly when their
      paths are pairwise distinct. */
  lemma {:induction false} RemoveSucceeds(o: Faults, w: World, paths: seq<string>)
    requires NoFaults(o) && forall i :: 0 <= i < |paths| ==> paths[i] in w.files
    ensures RemoveSeq(o, w, paths).1 <==> NoDup(paths)
    ensures RemoveSeq(o, w, paths).1 ==> RemoveSeq(o, w, paths).0.files == w.files - (set p | p in paths)
  {
    if paths != [] {
      var front, last := paths[..|paths| - 1], paths[|paths| - 1];
      assert forall i :: 0 <= i < |front| ==> front[i] == paths[i];
      RemoveSucceeds(o, w, front);
      NoDupLast(paths);
      RemovalsAdd(w.files, paths, front, last);
    } else {
      assert w.files - (set p | p in paths) == w.files;
    }
  }

  lemma NoDupLast(paths: seq<string>)
    requires paths != []
    ensures var front, last := paths[..|paths| - 1], paths[|paths| - 1]; NoDup(paths) <==> NoDup(front) && last !in front
  {
    assert paths == paths[..|paths| - 1] + [paths[|paths| - 1]];
    NoDupAppend(paths[..|paths| - 1], [paths[|paths| - 1]]);
  }

  lemma RemovalsAdd(files: map<string, Content>, paths: seq<string>, front: seq<string>, last: string)
    requires paths == front + [last]
    ensures files - (set p | p in front) - {last} == files - (set p | p in paths)
  {
    assert (set p | p in paths) == (set p | p in front) + {last};
  }

  function PathSet(v: Vrf): set<string> {
    {ConfPath(v.id), IniPath(v.id)} + set p | p in CertPaths(v.clientName, v.endpoints)
  }

  lemma RunNoRouter(frr: Frr, localAs: nat, id: nat)
    ensures RunCommands(frr, [NoRouterBgp(localAs, id)]) == RunCommand(frr, NoRouterBgp(localAs, id))
  {
    assert [NoRouterBgp(localAs, id)][..0] == [];
  }

  lemma BeforeCertsNoFaults(o: Faults, w: World, v: Vrf)
    requires NoFaults(o)
    ensures var (w', ok) := DeleteBeforeCerts(o, w, v);
      && ok && Off(w'.files) == Off(w.files) - {ConfPath(v.id), IniPath(v.id)}
      && w'.frr == RunCommand(w.frr, NoRouterBgp(v.localAs, v.id))
  {
    RunNoRouter(w.frr, v.localAs, v.id);
    OffPut(w.files - {IniPath(v.id)} - {ConfPath(v.id)}, VTYSH, Vtysh([NoRouterBgp(v.localAs, v.id)]));
  }

  lemma CertsStay(o: Faults, w: World, v: Vrf, m: nat)
    requires PresentPrefix(w.files, CertPaths(v.clientName, v.endpoints), m)
    ensures PresentPrefix(DeleteBeforeCerts(o, w, v).0.files, CertPaths(v.clientName, v.endpoints), m)
  {
    var paths := CertPaths(v.clientName, v.endpoints);
    NotVtysh(v);
    forall i | 0 <= i < |paths| ensures paths[i] in DeleteBeforeCerts(o, w, v).0.files <==> i < m {
      assert paths[i] in paths;
      CertsApart(v, i);
      BeforeCertsTouches(o, w, v, paths[i]);
    }
  }

  lemma CertsApart(v: Vrf, i: nat)
    requires i < |CertPaths(v.clientName, v.endpoints)|
    ensures CertPaths(v.clientName, v.endpoints)[i] != ConfPath(v.id) && CertPaths(v.clientName, v.endpoints)[i] != IniPath(v.id)
  {
    var paths := CertPaths(v.clientName, v.endpoints);
    CertPathsMembers(v.clientName, v.endpoints, paths[i]);
    var e :| 0 <= e < |v.endpoints| && paths[i] in EndpointPaths(v.clientName, v.endpoints[e]);
    IdPathsApart(v.clientName, v.endpoints[e], v.id);
  }

  /** Without faults deleting a VRF of which a prefix was written removes all of it. The
      answer is an error unless all certificates were there. */
  lemma DeletePrefix(o: Faults, w: World, v: Vrf, m: nat)
    requires NoFaults(o) && NoDup(CertPaths(v.clientName, v.endpoints))
    requires PresentPrefix(w.files, CertPaths(v.clientName, v.endpoints), m)
    ensures var (w', ok) := DeleteConfigs(o, w, v);
      && Off(w'.files) == Off(w.files) - PathSet(v)
      && w'.frr == RunCommand(w.frr, NoRouterBgp(v.localAs, v.id))
      && (ok <==> m == |CertPaths(v.clientName, v.endpoints)|)
  {
    var paths, w1 := CertPaths(v.clientName, v.endpoints), DeleteBeforeCerts(o, w, v).0;
    BeforeCertsNoFaults(o, w, v);
    CertsStay(o, w, v, m);
    RemovePrefix(o, w1, paths, m);
    OffMinus(w.files, w1.files, {ConfPath(v.id), IniPath(v.id)}, set p | p in paths);
  }

  lemma OffMinus(files: map<string, Content>, files': map<string, Content>, a: set<string>, b: set<string>)
    requires Off(files') == Off(files) - a
    ensures Off(files' - b) == Off(files) - (a + b)
  {
    assert Off(files' - b) == Off(files') - b;
    assert Off(files) - a - b == Off(files) - (a + b);
  }
}
