/** What deploying and taking down the hardware VRF does to the switch. */
module HardwareProofs {
  import opened Types
  import opened Switch
  import opened HardwareGenerator

  /** `d'` is `d` after the first k of the requests `qs` took effect. */
  predicate SentPrefix(d: Device, d': Device, qs: seq<Request>, k: nat) {
    k <= |qs| && d'.log == d.log + qs[..k] && d'.config == ApplyAll(d.config, qs[..k])
  }

  lemma SentOneMore(d: Device, d1: Device, d2: Device, qs: seq<Request>, k: nat)
    requires SentPrefix(d, d1, qs, k) && k < |qs|
    requires d2.log == d1.log + [qs[k]] && d2.config == Apply(d1.config, qs[k])
    ensures SentPrefix(d, d2, qs, k + 1)
  {
    assert qs[..k + 1] == qs[..k] + [qs[k]];
    assert qs[..k + 1][..k] == qs[..k];
  }

  /** The accepted requests of a folder are a prefix of its files, whatever the switch
      replies, and all of them when the folder succeeds. */
  lemma {:induction false} CreateFolderPrefix(replies: nat -> Reply, d: Device, kind: Kind, vrf: Vrf, es: seq<Endpoint>, n: nat)
    returns (k: nat)
    requires n <= FileCount(es)
    ensures var (d', ok) := CreateFolder(replies, d, kind, vrf, es, n);
      k <= n && SentPrefix(d, d', FolderPatches(kind, vrf, es), k) && (ok <==> k == n)
  {
    k := 0;
    if n > 0 {
      k := CreateFolderPrefix(replies, d, kind, vrf, es, n - 1);
      var (d1, ok) := CreateFolder(replies, d, kind, vrf, es, n - 1);
      if ok && Renders(kind, n - 1, vrf, es) {
        var q := Patch(Body(kind, n - 1, vrf, es));
        SendOutcome(replies, d1, q);
        var (d2, sent) := Send(replies, d1, q);
        if sent {
          SentOneMore(d, d1, d2, FolderPatches(kind, vrf, es), k);
          k := n;
        }
      }
    }
  }

  lemma {:induction false} ImportAllPrefix(replies: nat -> Reply, d: Device, es: seq<Endpoint>) returns (k: nat)
    ensures var (d', ok) := ImportAll(replies, d, es);
      SentPrefix(d, d', Imports(es), k) && (ok <==> k == |es|)
  {
    k := 0;
    if es != [] {
      var front, e := es[..|es| - 1], es[|es| - 1];
      k := ImportAllPrefix(replies, d, front);
      var (d1, ok) := ImportAll(replies, d, front);
      assert Imports(front) == Imports(es)[..|front|];
      assert Imports(es)[..|front|][..k] == Imports(es)[..k];
      if ok {
        SendOutcome(replies, d1, Import(e.id));
        var (d2, sent) := Send(replies, d1, Import(e.id));
        if sent {
          SentOneMore(d, d1, d2, Imports(es), k);
          k := |es|;
        }
      }
    }
  }

  /** A part that was sent in full, and then a prefix of what follows it. */
  lemma SentThen(d: Device, d1: Device, d2: Device, a: seq<Request>, b: seq<Request>, k: nat)
    requires SentPrefix(d, d1, a, |a|) && SentPrefix(d1, d2, b, k)
    ensures SentPrefix(d, d2, a + b, |a| + k)
  {
    assert a[..|a|] == a;
    assert (a + b)[..|a| + k] == a + b[..k];
    ApplyAllAppend(d.config, a, b[..k]);
  }

  lemma SentEarlier(d: Device, d1: Device, a: seq<Request>, b: seq<Request>, k: nat)
    requires SentPrefix(d, d1, a, k)
    ensures SentPrefix(d, d1, a + b, k)
  {
    assert (a + b)[..k] == a[..k];
  }

  /** Two parts sent one after the other, the second only if all of the first was. */
  lemma SentInTurn(d: Device, d1: Device, d2: Device, a: seq<Request>, b: seq<Request>, i: nat, j: nat) returns (k: nat)
    requires SentPrefix(d, d1, a, i) && (i == |a| ==> SentPrefix(d1, d2, b, j))
    ensures SentPrefix(d, if i == |a| then d2 else d1, a + b, k)
    ensures k == |a + b| <==> i == |a| && j == |b|
  {
    if i == |a| {
      SentThen(d, d1, d2, a, b, j);
      k := i + j;
    } else {
      SentEarlier(d, d1, a, b, i);
      k := i;
    }
  }

  lemma PskPrefix(replies: nat -> Reply, d: Device, vrf: Vrf) returns (k: nat)
    ensures var (d', ok) := GeneratePsk(replies, d, vrf);
      SentPrefix(d, d', PskRequests(vrf), k) && (ok <==> k == |PskRequests(vrf)|)
  {
    var psk := Subset(vrf.endpoints, Psk);
    k := 0;
    if psk != [] {
      k := CreateFolderPrefix(replies, d, Psk, vrf, psk, FileCount(psk));
    }
  }

  lemma CertsPrefix(replies: nat -> Reply, d: Device, vrf: Vrf) returns (k: nat)
    ensures var (d', ok) := GenerateCerts(replies, d, vrf);
      SentPrefix(d, d', CertsRequests(vrf), k) && (ok <==> k == |CertsRequests(vrf)|)
  {
    var certs := Subset(vrf.endpoints, Certs);
    k := 0;
    if certs != [] {
      var a, b := Imports(vrf.endpoints), FolderPatches(Certs, vrf, certs);
      var i := ImportAllPrefix(replies, d, vrf.endpoints);
      var d1 := ImportAll(replies, d, vrf.endpoints).0;
      var j := CreateFolderPrefix(replies, d1, Certs, vrf, certs, FileCount(certs));
      k := SentInTurn(d, d1, CreateFolder(replies, d1, Certs, vrf, certs, FileCount(certs)).0, a, b, i, j);
    }
  }

  /** Over both folders: what a deployment gets accepted is a prefix of the full list of
      requests, and the full list exactly when it reports success. */
  lemma GeneratePrefix(replies: nat -> Reply, d: Device, vrf: Vrf) returns (k: nat)
    requires |vrf.cryptoPh1| >= 2 && |vrf.cryptoPh2| >= 2
    ensures var (d', ok) := Generate(replies, d, vrf);
      && SentPrefix(d, d', CreateRequests(vrf), k)
      && (ok ==> k == |CreateRequests(vrf)|)
      && (!ok ==> k < |CreateRequests(vrf)|)
  {
    var a, b := PskRequests(vrf), CertsRequests(vrf);
    var i := PskPrefix(replies, d, vrf);
    var (d1, ok) := GeneratePsk(replies, d, vrf);
    var j := CertsPrefix(replies, d1, vrf);
    k := SentInTurn(d, d1, GenerateCerts(replies, d1, vrf).0, a, b, i, j);
  }

  /** The switch accepts every request. */
  ghost predicate Willing(replies: nat -> Reply) { forall t :: replies(t) == Switch.Accepted }

  lemma {:induction false} CreateFolderWilling(replies: nat -> Reply, d: Device, kind: Kind, vrf: Vrf, es: seq<Endpoint>, n: nat)
    requires Willing(replies)
    ensures CreateFolder(replies, d, kind, vrf, es, n).1 <==> forall i :: 0 <= i < n ==> Renders(kind, i, vrf, es)
  {
    if n > 0 {
      CreateFolderWilling(replies, d, kind, vrf, es, n - 1);
    }
  }

  lemma {:induction false} ImportAllWilling(replies: nat -> Reply, d: Device, es: seq<Endpoint>)
    requires Willing(replies)
    ensures ImportAll(replies, d, es).1
  {
    if es != [] {
      ImportAllWilling(replies, d, es[..|es| - 1]);
    }
  }

  /** What a folder of templates needs to render: three crypto items per phase and, for psk
      endpoints, no local id that is a lone "@". */
  predicate Printable(kind: Kind, vrf: Vrf, es: seq<Endpoint>) {
    |vrf.cryptoPh1| >= 3 && |vrf.cryptoPh2| >= 3 && (kind == Psk ==> NoLoneAt(es))
  }

  predicate NoLoneAt(es: seq<Endpoint>) { forall i :: 0 <= i < |es| ==> es[i].auth.localId != "@" }

  lemma FolderRenders(kind: Kind, vrf: Vrf, es: seq<Endpoint>)
    requires es != []
    ensures (forall i :: 0 <= i < FileCount(es) ==> Renders(kind, i, vrf, es)) <==> Printable(kind, vrf, es)
  {
    forall i | 0 <= i < |es| ensures LocalIdPrints(es[i]) <==> es[i].auth.localId != "@" {
      LocalIdTypeFails(es[i].auth.localId, true);
      LocalIdTypeFails(es[i].auth.localId, false);
    }
    assert Renders(kind, 0, vrf, es) <==> |vrf.cryptoPh1| >= 3;
    assert Renders(kind, 3, vrf, es) <==> (kind == Psk ==> NoLoneAt(es));
    assert Renders(kind, 5, vrf, es) <==> |vrf.cryptoPh2| >= 3;
  }

  /** When a switch that accepts everything gets all of a deployment. The length check of
      the code asks for two crypto items per phase, the templates for three. */
  predicate Deployable(vrf: Vrf) {
    var psk, certs := Subset(vrf.endpoints, Psk), Subset(vrf.endpoints, Certs);
    && |vrf.cryptoPh1| >= 2 && |vrf.cryptoPh2| >= 2
    && (psk != [] || certs != [] ==> |vrf.cryptoPh1| >= 3 && |vrf.cryptoPh2| >= 3)
    && NoLoneAt(psk)
  }

  lemma GenerateSucceeds(replies: nat -> Reply, d: Device, vrf: Vrf)
    requires Willing(replies)
    ensures Generate(replies, d, vrf).1 <==> Deployable(vrf)
  {
    var psk, certs := Subset(vrf.endpoints, Psk), Subset(vrf.endpoints, Certs);
    var d1 := d;
    if psk != [] {
      CreateFolderWilling(replies, d, Psk, vrf, psk, FileCount(psk));
      FolderRenders(Psk, vrf, psk);
      d1 := CreateFolder(replies, d, Psk, vrf, psk, FileCount(psk)).0;
    }
    if certs != [] {
      ImportAllWilling(replies, d1, vrf.endpoints);
      CreateFolderWilling(replies, ImportAll(replies, d1, vrf.endpoints).0, Certs, vrf, certs, FileCount(certs));
      FolderRenders(Certs, vrf, certs);
    }
  }

  /** Three crypto items per phase are not enough when a psk endpoint has the local id "@". */
  lemma LoneAtFails(replies: nat -> Reply, d: Device, vrf: Vrf, e: Endpoint)
    requires Willing(replies) && e in vrf.endpoints && e.IsPsk() && e.auth.localId == "@"
    ensures !Generate(replies, d, vrf).1
  {
    var psk := Subset(vrf.endpoints, Psk);
    assert e in psk;
    var i :| 0 <= i < |psk| && psk[i] == e;
    assert psk[i].auth.localId == "@";
    GenerateSucceeds(replies, d, vrf);
  }

  /** The number of a resource's template file: references go to lower numbers. */
  function Rank(r: Resource): nat {
    match r
    case Proposal(_) => 0
    case Trustpoint(_) => 1
    case Policy(kind) => if kind == Psk then 1 else 2
    case Keyring(_) => 2
    case Ikev2Profile(_, _) => 3
    case TransformSet(_) => 4
    case IpsecProfile(_, _) => 5
    case Ipv6Routing => 6
    case Tunnel(_) => 7
    case Bgp(_) => 8
  }

  lemma MergeClosed(c: Config, body: Config)
    requires Closed(c) && forall r, y :: r in body && y in body[r] ==> y in c || y in body
    ensures Closed(Merge(c, body))
  {
  }

  lemma FolderPrefixHas(c: Config, kind: Kind, vrf: Vrf, es: seq<Endpoint>, k: nat, j: nat, r: Resource)
    requires j < k <= FileCount(es) && r in Body(kind, j, vrf, es)
    ensures r in ApplyAll(c, FolderPatches(kind, vrf, es)[..k])
  {
    var qs := FolderPatches(kind, vrf, es)[..k];
    assert Touches(qs[j], r);
    ApplyAllEffect(c, qs, r);
  }

  /** The references of a file's resources are created by earlier files. */
  lemma BodyRefs(kind: Kind, file: nat, vrf: Vrf, es: seq<Endpoint>, r: Resource, y: Resource)
    requires file < FILES && r in Body(kind, file, vrf, es) && y in Body(kind, file, vrf, es)[r]
    ensures Rank(r) == file && Rank(y) < file && y in Body(kind, Rank(y), vrf, es)
  {
  }

  lemma {:induction false} FolderPrefixClosed(c: Config, kind: Kind, vrf: Vrf, es: seq<Endpoint>, k: nat)
    requires Closed(c) && k <= FileCount(es)
    ensures Closed(ApplyAll(c, FolderPatches(kind, vrf, es)[..k]))
  {
    if k > 0 {
      var qs := FolderPatches(kind, vrf, es);
      FolderPrefixClosed(c, kind, vrf, es, k - 1);
      NextBodyClosed(c, kind, vrf, es, k);
      ApplyAllNext(c, qs, k);
    }
  }

  lemma ApplyAllNext(c: Config, qs: seq<Request>, k: nat)
    requires 1 <= k <= |qs|
    ensures ApplyAll(c, qs[..k]) == Apply(ApplyAll(c, qs[..k - 1]), qs[k - 1])
  {
    assert qs[..k][..k - 1] == qs[..k - 1];
  }

  lemma NextBodyClosed(c: Config, kind: Kind, vrf: Vrf, es: seq<Endpoint>, k: nat)
    requires 1 <= k <= FileCount(es) && Closed(ApplyAll(c, FolderPatches(kind, vrf, es)[..k - 1]))
    ensures Closed(Apply(ApplyAll(c, FolderPatches(kind, vrf, es)[..k - 1]), FolderPatches(kind, vrf, es)[k - 1]))
  {
    BodyRefsThere(c, kind, vrf, es, k);
    MergeClosed(ApplyAll(c, FolderPatches(kind, vrf, es)[..k - 1]), Body(kind, k - 1, vrf, es));
  }

  lemma BodyRefsThere(c: Config, kind: Kind, vrf: Vrf, es: seq<Endpoint>, k: nat)
    requires 1 <= k <= FileCount(es)
    ensures var body := Body(kind, k - 1, vrf, es);
      forall r, y :: r in body && y in body[r] ==> y in ApplyAll(c, FolderPatches(kind, vrf, es)[..k - 1])
  {
    var body := Body(kind, k - 1, vrf, es);
    forall r, y | r in body && y in body[r] ensures y in ApplyAll(c, FolderPatches(kind, vrf, es)[..k - 1]) {
      BodyRefs(kind, k - 1, vrf, es, r, y);
      FolderPrefixHas(c, kind, vrf, es, k - 1, Rank(y), y);
    }
  }

  lemma {:induction false} ImportsClosed(c: Config, es: seq<Endpoint>, k: nat)
    requires Closed(c) && k <= |es|
    ensures Closed(ApplyAll(c, Imports(es)[..k]))
  {
    if k > 0 {
      ImportsClosed(c, es, k - 1);
      assert Imports(es)[..k][..k - 1] == Imports(es)[..k - 1];
      MergeClosed(ApplyAll(c, Imports(es)[..k - 1]), map[Trustpoint(es[k - 1].id) := {}]);
    }
  }

  /** Prefixes of a list in two parts. */
  lemma PrefixOfTwo(c: Config, a: seq<Request>, b: seq<Request>, k: nat)
    requires k <= |a + b|
    ensures k <= |a| ==> ApplyAll(c, (a + b)[..k]) == ApplyAll(c, a[..k])
    ensures k > |a| ==> ApplyAll(c, (a + b)[..k]) == ApplyAll(ApplyAll(c, a), b[..k - |a|])
  {
    if k <= |a| {
      assert (a + b)[..k] == a[..k];
    } else {
      assert (a + b)[..k] == a + b[..k - |a|];
      ApplyAllAppend(c, a, b[..k - |a|]);
    }
  }

  lemma PskClosed(c: Config, vrf: Vrf, k: nat)
    requires Closed(c) && k <= |PskRequests(vrf)|
    ensures Closed(ApplyAll(c, PskRequests(vrf)[..k]))
  {
    var psk := Subset(vrf.endpoints, Psk);
    if psk != [] { FolderPrefixClosed(c, Psk, vrf, psk, k); }
  }

  lemma CertsClosed(c: Config, vrf: Vrf, k: nat)
    requires Closed(c) && k <= |CertsRequests(vrf)|
    ensures Closed(ApplyAll(c, CertsRequests(vrf)[..k]))
  {
    var certs := Subset(vrf.endpoints, Certs);
    if certs != [] {
      var a, b := Imports(vrf.endpoints), FolderPatches(Certs, vrf, certs);
      PrefixOfTwo(c, a, b, k);
      if k <= |a| {
        ImportsClosed(c, vrf.endpoints, k);
      } else {
        ImportsClosed(c, vrf.endpoints, |a|);
        assert a[..|a|] == a;
        FolderPrefixClosed(ApplyAll(c, a), Certs, vrf, certs, k - |a|);
      }
    }
  }

  /** At each step of a deployment, however far it gets, no resource on the switch
      refers to a missing one. */
  lemma CreateStepsClosed(c: Config, vrf: Vrf, k: nat)
    requires Closed(c) && k <= |CreateRequests(vrf)|
    ensures Closed(ApplyAll(c, CreateRequests(vrf)[..k]))
  {
    var a, b := PskRequests(vrf), CertsRequests(vrf);
    PrefixOfTwo(c, a, b, k);
    if k <= |a| {
      PskClosed(c, vrf, k);
    } else {
      PskClosed(c, vrf, |a|);
      assert a[..|a|] == a;
      var c1 := ApplyAll(c, a);
      assert Closed(c1);
      CertsClosed(c1, vrf, k - |a|);
    }
  }

  function Without(c: Config, urls: seq<Resource>): Config { c - set r | r in urls }

  /** A switch that accepts everything ends up without the listed resources. */
  lemma {:induction false} DeleteAllWilling(replies: nat -> Reply, d: Device, urls: seq<Resource>)
    requires Willing(replies)
    ensures DeleteAll(replies, d, urls).config == Without(d.config, urls)
  {
    if urls != [] {
      var front, last := urls[..|urls| - 1], urls[|urls| - 1];
      DeleteAllWilling(replies, d, front);
      SendOutcome(replies, DeleteAll(replies, d, front), Delete(last));
      assert (set r | r in urls) == (set r | r in front) + {last};
    } else {
      assert Without(d.config, urls) == d.config;
    }
  }

  predicate Touches(q: Request, r: Resource) {
    match q
    case Patch(body) => r in body
    case Import(id) => r == Trustpoint(id)
    case Delete(_) => false
  }

  predicate Touched(qs: seq<Request>, r: Resource) {
    exists i :: 0 <= i < |qs| && Touches(qs[i], r)
  }

  predicate Refers(q: Request, r: Resource, y: Resource) {
    q.Patch? && r in q.body && y in q.body[r]
  }

  predicate Creating(qs: seq<Request>) { forall i :: 0 <= i < |qs| ==> !qs[i].Delete? }

  /** What a list of creating requests does to one resource. */
  lemma {:induction false} ApplyAllEffect(c: Config, qs: seq<Request>, r: Resource)
    requires Creating(qs)
    ensures r in ApplyAll(c, qs) <==> r in c || Touched(qs, r)
    ensures r in c && !Touched(qs, r) ==> ApplyAll(c, qs)[r] == c[r]
    ensures r in ApplyAll(c, qs) ==> forall y :: y in ApplyAll(c, qs)[r] ==>
      (r in c && y in c[r]) || exists i :: 0 <= i < |qs| && Refers(qs[i], r, y)
  {
    if qs != [] {
      var front, q := qs[..|qs| - 1], qs[|qs| - 1];
      ApplyAllEffect(c, front, r);
      assert forall i :: 0 <= i < |front| ==> front[i] == qs[i];
      assert Touched(qs, r) <==> Touched(front, r) || Touches(q, r);
      assert r in ApplyAll(c, qs) <==> r in ApplyAll(c, front) || Touches(q, r);
      if r in ApplyAll(c, qs) {
        forall y | y in ApplyAll(c, qs)[r]
          ensures (r in c && y in c[r]) || exists i :: 0 <= i < |qs| && Refers(qs[i], r, y)
        {
          assert (r in ApplyAll(c, front) && y in ApplyAll(c, front)[r]) || Refers(q, r, y);
        }
      }
    }
  }

  /** A list per endpoint names what a set of ids names. */
  lemma PerEndpointHas(es: seq<Endpoint>, f: nat -> Resource, r: Resource)
    ensures r in PerEndpoint(es, f) <==> exists id :: id in Ids(es) && f(id) == r
  {
    var rs := PerEndpoint(es, f);
    if r in rs {
      var i :| 0 <= i < |rs| && rs[i] == r;
      assert es[i] in es && f(es[i].id) == r;
    }
    if id :| id in Ids(es) && f(id) == r {
      var e :| e in es && e.id == id;
      var i :| 0 <= i < |es| && es[i] == e;
      assert rs[i] == r;
    }
  }

  /** A template file creates exactly what its delete URLs name. */
  lemma UrlsMatchBody(kind: Kind, file: nat, vrf: Vrf, es: seq<Endpoint>, r: Resource)
    requires file < FILES
    ensures r in Urls(kind, file, vrf, es) <==> r in Body(kind, file, vrf, es)
    ensures r in Urls(kind, file, vrf, es) ==> Rank(r) == file
  {
    match file
    case 1 => if kind == Certs { PerEndpointHas(es, (id: nat) => Trustpoint(id), r); }
    case 3 => PerEndpointHas(es, (id: nat) => Ikev2Profile(kind, id), r);
    case 5 => PerEndpointHas(es, (id: nat) => IpsecProfile(kind, id), r);
    case 7 => PerEndpointHas(es, (id: nat) => Tunnel(id), r);
    case _ =>
  }

  predicate OwnOf(kind: Kind, vrf: Vrf, es: seq<Endpoint>, r: Resource) {
    r in Body(kind, Rank(r), vrf, es)
  }

  lemma UrlsOwn(kind: Kind, file: nat, vrf: Vrf, es: seq<Endpoint>, r: Resource)
    requires file < FILES
    ensures r in Urls(kind, file, vrf, es) <==> Rank(r) == file && OwnOf(kind, vrf, es, r)
  {
    UrlsMatchBody(kind, file, vrf, es, r);
  }

  lemma InTwo(a: seq<Resource>, b: seq<Resource>, r: Resource)
    ensures r in a + b <==> r in a || r in b
  {
  }

  lemma {:induction false} FolderDeletesOwn(kind: Kind, vrf: Vrf, es: seq<Endpoint>, n: nat, r: Resource)
    requires n <= FILES
    ensures r in FolderDeletes(kind, vrf, es, n) <==> Rank(r) < n && OwnOf(kind, vrf, es, r)
  {
    if n > 0 {
      FolderDeletesOwn(kind, vrf, es, n - 1, r);
      UrlsOwn(kind, n - 1, vrf, es, r);
      InTwo(Urls(kind, n - 1, vrf, es), FolderDeletes(kind, vrf, es, n - 1), r);
    }
  }

  /** Everything the generator creates or deletes for one kind of endpoint. */
  predicate Own(vrf: Vrf, kind: Kind, r: Resource) {
    Subset(vrf.endpoints, kind) != [] && OwnOf(kind, vrf, Subset(vrf.endpoints, kind), r)
  }

  predicate Imported(vrf: Vrf, r: Resource) {
    Subset(vrf.endpoints, Certs) != [] && r.Trustpoint? && r.id in Ids(vrf.endpoints)
  }

  lemma DeleteUrlsOwn(vrf: Vrf, r: Resource)
    ensures r in DeleteUrls(vrf) <==> Own(vrf, Psk, r) || Own(vrf, Certs, r)
  {
    FolderDeletesOwn(Psk, vrf, Subset(vrf.endpoints, Psk), FILES, r);
    FolderDeletesOwn(Certs, vrf, Subset(vrf.endpoints, Certs), FILES, r);
  }

  lemma RankBelowBgp(r: Resource)
    ensures Rank(r) < FILES
    ensures !r.Bgp? ==> Rank(r) < FILES - 1
  {
  }

  lemma CreateRequestsCreate(vrf: Vrf)
    ensures Creating(CreateRequests(vrf))
  {
  }

  /** Nothing on the switch carries one of the generator's names yet. IPv6 routing and a
      BGP process have no name of their own and may be there. */
  ghost predicate Unused(c: Config, vrf: Vrf) {
    forall r :: r in c && !r.Ipv6Routing? && !r.Bgp? ==> !Own(vrf, Psk, r) && !Own(vrf, Certs, r) && !Imported(vrf, r)
  }

  function Shared(vrf: Vrf): set<Resource> {
    if Subset(vrf.endpoints, Psk) == [] && Subset(vrf.endpoints, Certs) == [] then {}
    else {Ipv6Routing, Bgp(vrf.localAs)}
  }

  /** The trustpoints of these imports that no delete URL names. */
  function LeftBy(vrf: Vrf, qs: seq<Request>): Config {
    map id | id in Ids(vrf.endpoints) && Import(id) in qs && id !in Ids(Subset(vrf.endpoints, Certs)) :: Trustpoint(id) := {}
  }

  lemma SharedIsOwn(vrf: Vrf, r: Resource)
    ensures r in Shared(vrf) <==> (r.Ipv6Routing? || r.Bgp?) && (Own(vrf, Psk, r) || Own(vrf, Certs, r))
  {
  }

  /** What the first m requests create beyond the own resources are imported trustpoints. */
  lemma PrefixTouches(vrf: Vrf, m: nat, r: Resource)
    requires m <= |CreateRequests(vrf)| && !Own(vrf, Psk, r) && !Own(vrf, Certs, r)
    ensures Touched(CreateRequests(vrf)[..m], r) <==> r in LeftBy(vrf, CreateRequests(vrf)[..m])
  {
    var qs := CreateRequests(vrf)[..m];
    if i :| 0 <= i < m && Touches(qs[i], r) { TouchedIsLeft(vrf, m, i, r); }
    if r in LeftBy(vrf, qs) {
      var i :| 0 <= i < m && qs[i] == Import(r.id);
      assert Touches(qs[i], r);
    }
  }

  lemma TouchedIsLeft(vrf: Vrf, m: nat, i: nat, r: Resource)
    requires i < m <= |CreateRequests(vrf)| && Touches(CreateRequests(vrf)[i], r) && !Own(vrf, Psk, r) && !Own(vrf, Certs, r)
    ensures r in LeftBy(vrf, CreateRequests(vrf)[..m])
  {
    RequestTouches(vrf, i, r);
    NotCerts(vrf, r);
    assert CreateRequests(vrf)[..m][i] == Import(r.id);
  }

  /** Such a trustpoint belongs to no certs endpoint, if there are any. */
  lemma NotCerts(vrf: Vrf, r: Resource)
    requires !Own(vrf, Certs, r) && r.Trustpoint?
    ensures r.id !in Ids(Subset(vrf.endpoints, Certs))
  {
  }

  lemma RequestTouches(vrf: Vrf, i: nat, r: Resource)
    requires i < |CreateRequests(vrf)| && Touches(CreateRequests(vrf)[i], r) && !Own(vrf, Psk, r) && !Own(vrf, Certs, r)
    ensures r.Trustpoint? && CreateRequests(vrf)[i] == Import(r.id) && Imported(vrf, r)
  {
    var a := PskRequests(vrf);
    if i < |a| { PskTouches(vrf, i, r); } else { CertsTouches(vrf, i - |a|, r); }
  }

  lemma PskTouches(vrf: Vrf, i: nat, r: Resource)
    requires i < |PskRequests(vrf)| && Touches(PskRequests(vrf)[i], r)
    ensures Own(vrf, Psk, r)
  {
    PatchTouchesOwn(Psk, i, vrf, r);
  }

  lemma CertsTouches(vrf: Vrf, i: nat, r: Resource)
    requires i < |CertsRequests(vrf)| && Touches(CertsRequests(vrf)[i], r) && !Own(vrf, Certs, r)
    ensures r.Trustpoint? && CertsRequests(vrf)[i] == Import(r.id) && Imported(vrf, r)
  {
    if i < |vrf.endpoints| {
      assert CertsRequests(vrf)[i] == Import(vrf.endpoints[i].id) && vrf.endpoints[i] in vrf.endpoints;
    } else {
      PatchTouchesOwn(Certs, i - |vrf.endpoints|, vrf, r);
    }
  }

  lemma PatchTouchesOwn(kind: Kind, file: nat, vrf: Vrf, r: Resource)
    requires file < FILES && Subset(vrf.endpoints, kind) != [] && r in Body(kind, file, vrf, Subset(vrf.endpoints, kind))
    ensures Own(vrf, kind, r)
  {
    UrlsMatchBody(kind, file, vrf, Subset(vrf.endpoints, kind), r);
  }

  /** Where a created resource gets its references from. */
  lemma CreateRefers(vrf: Vrf, i: nat, r: Resource, y: Resource) returns (kind: Kind)
    requires i < |CreateRequests(vrf)| && Refers(CreateRequests(vrf)[i], r, y)
    ensures RefersOwn(vrf, kind, r, y)
    ensures Rank(r) != 1 || r.Policy?
  {
    var a, b := PskRequests(vrf), CertsRequests(vrf);
    assert CreateRequests(vrf) == a + b;
    if i < |a| {
      kind := Psk;
      FolderRefers(vrf, Psk, i, a[i], r, y);
    } else {
      kind := Certs;
      assert b[i - |a|] == CreateRequests(vrf)[i];
      FolderRefers(vrf, Certs, i - |a| - |vrf.endpoints|, b[i - |a|], r, y);
    }
  }

  lemma FolderRefers(vrf: Vrf, kind: Kind, file: int, q: Request, r: Resource, y: Resource)
    requires Refers(q, r, y) && Subset(vrf.endpoints, kind) != []
    requires 0 <= file < FileCount(Subset(vrf.endpoints, kind)) && q == Patch(Body(kind, file, vrf, Subset(vrf.endpoints, kind)))
    ensures RefersOwn(vrf, kind, r, y) && (Rank(r) != 1 || r.Policy?)
  {
    BodyRefs(kind, file, vrf, Subset(vrf.endpoints, kind), r, y);
  }

  predicate RefersOwn(vrf: Vrf, kind: Kind, r: Resource, y: Resource) {
    var es := Subset(vrf.endpoints, kind);
    OwnOf(kind, vrf, es, r) && y in Body(kind, Rank(r), vrf, es)[r] && Rank(y) < Rank(r) && OwnOf(kind, vrf, es, y)
  }

  lemma LeftIsImported(vrf: Vrf, m: nat, r: Resource)
    requires m <= |CreateRequests(vrf)| && r in LeftBy(vrf, CreateRequests(vrf)[..m])
    ensures r.Trustpoint? && Imported(vrf, r) && !Own(vrf, Psk, r) && !Own(vrf, Certs, r)
  {
    var qs := CreateRequests(vrf)[..m];
    var i :| 0 <= i < m && qs[i] == Import(r.id);
    ImportSent(vrf, r.id);
    assert CreateRequests(vrf)[i] == Import(r.id);
    OwnTrustpoints(vrf, r.id);
  }

  lemma OwnTrustpoints(vrf: Vrf, id: nat)
    ensures !Own(vrf, Psk, Trustpoint(id))
    ensures Own(vrf, Certs, Trustpoint(id)) <==> id in Ids(Subset(vrf.endpoints, Certs))
  {
  }

  /** One resource, after the first m creating requests and all deletes. */
  lemma PrefixDeleteOne(c: Config, vrf: Vrf, m: nat, r: Resource)
    requires Unused(c, vrf) && m <= |CreateRequests(vrf)|
    ensures var after, left := Without(ApplyAll(c, CreateRequests(vrf)[..m]), DeleteUrls(vrf)), LeftBy(vrf, CreateRequests(vrf)[..m]);
      && (r in after <==> (r in c && r !in Shared(vrf)) || r in left)
      && (r in after ==> after[r] == if r in left then {} else c[r])
  {
    var qs := CreateRequests(vrf)[..m];
    CreateRequestsCreate(vrf);
    assert Creating(qs);
    ApplyAllEffect(c, qs, r);
    DeleteUrlsOwn(vrf, r);
    SharedIsOwn(vrf, r);
    if r in LeftBy(vrf, qs) {
      LeftIsImported(vrf, m, r);
      LeftRefersToNothing(c, vrf, m, r);
    }
    if !Own(vrf, Psk, r) && !Own(vrf, Certs, r) { PrefixTouches(vrf, m, r); }
  }

  lemma LeftRefersToNothing(c: Config, vrf: Vrf, m: nat, r: Resource)
    requires m <= |CreateRequests(vrf)| && r !in c && r.Trustpoint? && r in ApplyAll(c, CreateRequests(vrf)[..m])
    ensures ApplyAll(c, CreateRequests(vrf)[..m])[r] == {}
  {
    var qs := CreateRequests(vrf)[..m];
    CreateRequestsCreate(vrf);
    assert Creating(qs);
    ApplyAllEffect(c, qs, r);
    forall y ensures y !in ApplyAll(c, qs)[r] {
      if i :| 0 <= i < |qs| && Refers(qs[i], r, y) {
        var _ := CreateRefers(vrf, i, r, y);
      }
    }
  }

  lemma PrefixDeleteAll(c: Config, vrf: Vrf, m: nat)
    requires Unused(c, vrf) && m <= |CreateRequests(vrf)|
    ensures Without(ApplyAll(c, CreateRequests(vrf)[..m]), DeleteUrls(vrf)) ==
      (c - Shared(vrf)) + LeftBy(vrf, CreateRequests(vrf)[..m])
  {
    var after := Without(ApplyAll(c, CreateRequests(vrf)[..m]), DeleteUrls(vrf));
    var left := LeftBy(vrf, CreateRequests(vrf)[..m]);
    forall r: Resource ensures RestAt(c, Shared(vrf), left, after, r) {
      PrefixDeleteOne(c, vrf, m, r);
      if r in left { LeftByEmpty(vrf, CreateRequests(vrf)[..m], r); }
    }
    RestIs(c, Shared(vrf), left, after);
  }

  lemma LeftByEmpty(vrf: Vrf, qs: seq<Request>, r: Resource)
    requires r in LeftBy(vrf, qs)
    ensures LeftBy(vrf, qs)[r] == {}
  {
  }

  /** At this resource `after` is `c` without `gone` and with `left`. */
  predicate RestAt(c: Config, gone: set<Resource>, left: Config, after: Config, r: Resource) {
    && (r in after <==> (r in c && r !in gone) || r in left)
    && (r in after ==> after[r] == if r in left then left[r] else if r in c then c[r] else {})
  }

  lemma RestIs(c: Config, gone: set<Resource>, left: Config, after: Config)
    requires forall r :: RestAt(c, gone, left, after, r)
    ensures after == (c - gone) + left
  {
    var expected := (c - gone) + left;
    forall r: Resource ensures (r in after <==> r in expected) && (r in after ==> after[r] == expected[r]) {
      assert RestAt(c, gone, left, after, r);
    }
  }

  /** The requests that were accepted between two states of the device. */
  function AcceptedBetween(d: Device, d': Device): seq<Request> {
    if |d.log| <= |d'.log| then d'.log[|d.log|..] else []
  }

  lemma GenerateSent(replies: nat -> Reply, d: Device, vrf: Vrf) returns (k: nat)
    ensures var (d1, ok) := Generate(replies, d, vrf);
      SentPrefix(d, d1, CreateRequests(vrf), k) && (ok ==> k == |CreateRequests(vrf)|)
  {
    if |vrf.cryptoPh1| >= 2 && |vrf.cryptoPh2| >= 2 { k := GeneratePrefix(replies, d, vrf); } else { k := 0; }
  }

  /** Wherever a deployment of the hardware VRF stopped, taking it down on a switch that
      accepts everything leaves exactly the trustpoints that were imported for endpoints
      without certificates. IPv6 routing and the BGP process are gone even if they were
      configured before. All else is as it was. */
  lemma PartialThenDelete(replies: nat -> Reply, replies': nat -> Reply, d: Device, vrf: Vrf)
    requires Willing(replies') && Unused(d.config, vrf)
    ensures var d1 := Generate(replies, d, vrf).0;
      TakeDown(replies', d1, vrf).config == (d.config - Shared(vrf)) + LeftBy(vrf, AcceptedBetween(d, d1))
  {
    var k := GenerateSent(replies, d, vrf);
    var d1 := Generate(replies, d, vrf).0;
    assert AcceptedBetween(d, d1) == CreateRequests(vrf)[..k];
    DeleteAllWilling(replies', d1, DeleteUrls(vrf));
    PrefixDeleteAll(d.config, vrf, k);
  }

  /** The trustpoints imported for endpoints without certificates. */
  function LeftOver(vrf: Vrf): Config {
    var certs := Subset(vrf.endpoints, Certs);
    map id | id in Ids(vrf.endpoints) && certs != [] && id !in Ids(certs) :: Trustpoint(id) := {}
  }

  lemma LeftByAll(vrf: Vrf)
    ensures LeftBy(vrf, CreateRequests(vrf)) == LeftOver(vrf)
  {
    var qs, certs := CreateRequests(vrf), Subset(vrf.endpoints, Certs);
    forall id | id in Ids(vrf.endpoints) ensures Import(id) in qs <==> certs != [] {
      ImportSent(vrf, id);
    }
  }

  lemma ImportSent(vrf: Vrf, id: nat)
    requires id in Ids(vrf.endpoints)
    ensures Import(id) in CreateRequests(vrf) <==> Subset(vrf.endpoints, Certs) != []
  {
    var a, b := PskRequests(vrf), CertsRequests(vrf);
    var e :| e in vrf.endpoints && e.id == id;
    var i :| 0 <= i < |vrf.endpoints| && vrf.endpoints[i] == e;
    if Subset(vrf.endpoints, Certs) != [] {
      assert b[i] == Import(id) && CreateRequests(vrf)[|a| + i] == Import(id);
    } else {
      assert CreateRequests(vrf) == a;
      assert forall j :: 0 <= j < |a| ==> a[j].Patch?;
    }
  }

  /** Deploying the hardware VRF on a switch that accepts everything succeeds exactly when
      it is deployable, and then taking it down leaves the trustpoints of all endpoints
      without certificates, which only a VRF of both kinds has. */
  lemma CreateThenDelete(replies: nat -> Reply, replies': nat -> Reply, d: Device, vrf: Vrf)
    requires Willing(replies) && Willing(replies') && Unused(d.config, vrf)
    ensures var (d1, ok) := Generate(replies, d, vrf);
      && (ok <==> Deployable(vrf))
      && (ok ==> TakeDown(replies', d1, vrf).config == (d.config - Shared(vrf)) + LeftOver(vrf))
  {
    GenerateSucceeds(replies, d, vrf);
    PartialThenDelete(replies, replies', d, vrf);
    var k := GenerateSent(replies, d, vrf);
    var (d1, ok) := Generate(replies, d, vrf);
    if ok {
      assert CreateRequests(vrf)[..k] == CreateRequests(vrf) && AcceptedBetween(d, d1) == CreateRequests(vrf);
      LeftByAll(vrf);
    }
  }

  /** A VRF with endpoints of one kind only leaves nothing behind. */
  lemma OneKindLeavesNothing(vrf: Vrf)
    requires (forall e :: e in vrf.endpoints ==> e.IsCerts()) || (forall e :: e in vrf.endpoints ==> e.IsPsk())
    ensures LeftOver(vrf) == map[]
  {
    var certs := Subset(vrf.endpoints, Certs);
    if certs != [] {
      assert certs[0] in vrf.endpoints;
      assert Ids(vrf.endpoints) <= Ids(certs);
    }
  }
}
