/** config/hardware_generator.go and hw_templates: the requests that deploy the hardware
    VRF and the ones that take it down. */
module HardwareGenerator {
  import opened Crypto
  import opened Types
  import opened Validation
  import opened Switch

  const FILES := 9

  function OfKind(e: Endpoint, kind: Kind): bool { if kind == Psk then e.IsPsk() else e.IsCerts() }

  function Subset(es: seq<Endpoint>, kind: Kind): (r: seq<Endpoint>)
    ensures forall e :: e in r <==> e in es && OfKind(e, kind)
  {
    if es == [] then []
    else
      assert forall e :: e in es <==> e in es[..|es| - 1] || e == es[|es| - 1];
      Subset(es[..|es| - 1], kind) + if OfKind(es[|es| - 1], kind) then [es[|es| - 1]] else []
  }

  function Ids(es: seq<Endpoint>): set<nat> { set e | e in es :: e.id }

  /** The resources that one template file creates, with their references. */
  function Body(kind: Kind, file: nat, vrf: Vrf, es: seq<Endpoint>): Config {
    match file
    case 0 => map[Proposal(kind) := {}]
    case 1 => if kind == Psk then map[Policy(Psk) := {Proposal(Psk)}] else map id | id in Ids(es) :: Trustpoint(id) := {}
    case 2 => if kind == Psk then map[Keyring(Psk) := {}] else map[Policy(Certs) := {Proposal(Certs)}]
    case 3 => map id | id in Ids(es) :: Ikev2Profile(kind, id) := {if kind == Psk then Keyring(Psk) else Trustpoint(id)}
    case 4 => map[TransformSet(kind) := {}]
    case 5 => map id | id in Ids(es) :: IpsecProfile(kind, id) := {Ikev2Profile(kind, id), TransformSet(kind)}
    case 6 => map[Ipv6Routing := {}]
    case 7 => map id | id in Ids(es) :: Tunnel(id) := {IpsecProfile(kind, id)}
    case _ => map[Bgp(vrf.localAs) := {}]
  }

  /** The delete URLs of a file, in the order of its template. */
  function Urls(kind: Kind, file: nat, vrf: Vrf, es: seq<Endpoint>): seq<Resource> {
    match file
    case 0 => [Proposal(kind)]
    case 1 => if kind == Psk then [Policy(Psk)] else PerEndpoint(es, (id: nat) => Trustpoint(id))
    case 2 => if kind == Psk then [Keyring(Psk)] else [Policy(Certs)]
    case 3 => PerEndpoint(es, (id: nat) => Ikev2Profile(kind, id))
    case 4 => [TransformSet(kind)]
    case 5 => PerEndpoint(es, (id: nat) => IpsecProfile(kind, id))
    case 6 => [Ipv6Routing]
    case 7 => PerEndpoint(es, (id: nat) => Tunnel(id))
    case _ => [Bgp(vrf.localAs)]
  }

  function PerEndpoint(es: seq<Endpoint>, f: nat -> Resource): (r: seq<Resource>)
    ensures |r| == |es| && forall i :: 0 <= i < |es| ==> r[i] == f(es[i].id)
  {
    seq(|es|, i requires 0 <= i < |es| => f(es[i].id))
  }

  /** transformLocalIDType; `isIp` is what net.ParseIP says. Taking two characters off the
      front of a lone "@" is out of range, which makes the template fail. */
  function LocalIdType(localId: string, isIp: bool): Result<string> {
    if '=' in localId then Ok("dn")
    else if '@' in localId then
      if |localId| < 2 then Panic
      else if localId[..2] == "@#" then Ok("key-id")
      else if localId[..1] == "@" then Ok("fqdn")
      else Ok("email")
    else if ':' in localId then (if isIp then Ok("address") else Ok("key-id"))
    else if isIp then Ok("address")
    else Ok("fqdn")
  }

  lemma LocalIdTypeFails(localId: string, isIp: bool)
    ensures LocalIdType(localId, isIp).Ok? <==> localId != "@"
  {
    if localId != "@" && |localId| == 1 { assert localId == [localId[0]]; }
  }

  /** The kind of a local id: a name with "=" in it, one that "@" leads or stands within,
      an address, and for the rest what a colon decides. */
  lemma LocalIdKinds(localId: string, isIp: bool)
    ensures '=' in localId ==> LocalIdType(localId, isIp) == Ok("dn")
    ensures '=' !in localId && '@' in localId && localId[0] != '@' ==> LocalIdType(localId, isIp) == Ok("email")
    ensures '=' !in localId && |localId| >= 2 && localId[0] == '@' ==>
      LocalIdType(localId, isIp) == Ok(if localId[1] == '#' then "key-id" else "fqdn")
    ensures '=' !in localId && '@' !in localId ==>
      LocalIdType(localId, isIp) == Ok(if isIp then "address" else if ':' in localId then "key-id" else "fqdn")
  {
    if '=' !in localId && '@' in localId {
      assert |localId| >= 2 ==> localId[..2] == [localId[0], localId[1]] && localId[..1] == [localId[0]];
      if |localId| < 2 { assert localId == [localId[0]]; }
    }
  }

  /** The psk profile prints a local id when there is one. */
  predicate LocalIdPrints(e: Endpoint) {
    e.auth.localId == "" || forall isIp :: LocalIdType(e.auth.localId, isIp).Ok?
  }

  /** Executing a template fails when it indexes a crypto item that is not there, the
      proposal a third phase 1 item and the IPsec profile a third phase 2 item, or, in the
      psk profile, on a local id. */
  predicate Renders(kind: Kind, file: nat, vrf: Vrf, es: seq<Endpoint>) {
    && (file == 0 ==> |vrf.cryptoPh1| >= 3)
    && (file == 3 && kind == Psk ==> forall i :: 0 <= i < |es| ==> LocalIdPrints(es[i]))
    && (file == 5 && es != [] ==> |vrf.cryptoPh2| >= 3)
  }

  predicate NeedsBgp(es: seq<Endpoint>) { BgpSubset(es, false) + BgpSubset(es, true) != [] }

  /** Files of a folder that are sent: the BGP file, the last one, only when needed. */
  function FileCount(es: seq<Endpoint>): nat { if NeedsBgp(es) then FILES else FILES - 1 }

  function FolderPatches(kind: Kind, vrf: Vrf, es: seq<Endpoint>): (r: seq<Request>)
    ensures |r| == FileCount(es)
    ensures forall i :: 0 <= i < |r| ==> r[i] == Patch(Body(kind, i, vrf, es))
  {
    seq(FileCount(es), i requires 0 <= i < FileCount(es) => Patch(Body(kind, i, vrf, es)))
  }

  function Imports(es: seq<Endpoint>): (r: seq<Request>)
    ensures |r| == |es| && forall i :: 0 <= i < |es| ==> r[i] == Import(es[i].id)
  {
    seq(|es|, i requires 0 <= i < |es| => Import(es[i].id))
  }

  /** What is sent for the psk endpoints. */
  function PskRequests(vrf: Vrf): seq<Request> {
    var psk := Subset(vrf.endpoints, Psk);
    if psk == [] then [] else FolderPatches(Psk, vrf, psk)
  }

  /** What is sent for the certs endpoints. The imports go over all endpoints. */
  function CertsRequests(vrf: Vrf): seq<Request> {
    var certs := Subset(vrf.endpoints, Certs);
    if certs == [] then [] else Imports(vrf.endpoints) + FolderPatches(Certs, vrf, certs)
  }

  /** Everything a complete deployment sends. */
  function CreateRequests(vrf: Vrf): seq<Request> { PskRequests(vrf) + CertsRequests(vrf) }

  function FolderDeletes(kind: Kind, vrf: Vrf, es: seq<Endpoint>, n: nat): seq<Resource> {
    if n == 0 then [] else Urls(kind, n - 1, vrf, es) + FolderDeletes(kind, vrf, es, n - 1)
  }

  function KindDeletes(kind: Kind, vrf: Vrf): seq<Resource> {
    var es := Subset(vrf.endpoints, kind);
    if es == [] then [] else FolderDeletes(kind, vrf, es, FILES)
  }

  function DeleteUrls(vrf: Vrf): seq<Resource> { KindDeletes(Psk, vrf) + KindDeletes(Certs, vrf) }

  /** doTemplateFolderCreate up to file `n`: in name order, stopping at the first file
      that does not render or is not accepted. */
  function CreateFolder(replies: nat -> Reply, d: Device, kind: Kind, vrf: Vrf, es: seq<Endpoint>, n: nat): (Device, bool) {
    if n == 0 then (d, true)
    else
      var (d1, ok) := CreateFolder(replies, d, kind, vrf, es, n - 1);
      if !ok || !Renders(kind, n - 1, vrf, es) then (d1, false)
      else Send(replies, d1, Patch(Body(kind, n - 1, vrf, es)))
  }

  function ImportAll(replies: nat -> Reply, d: Device, es: seq<Endpoint>): (Device, bool) {
    if es == [] then (d, true)
    else
      var (d1, ok) := ImportAll(replies, d, es[..|es| - 1]);
      if !ok then (d1, false) else Send(replies, d1, Import(es[|es| - 1].id))
  }

  function GeneratePsk(replies: nat -> Reply, d: Device, vrf: Vrf): (Device, bool) {
    var psk := Subset(vrf.endpoints, Psk);
    if psk == [] then (d, true) else CreateFolder(replies, d, Psk, vrf, psk, FileCount(psk))
  }

  function GenerateCerts(replies: nat -> Reply, d: Device, vrf: Vrf): (Device, bool) {
    var certs := Subset(vrf.endpoints, Certs);
    if certs == [] then (d, true)
    else
      var (d1, ok) := ImportAll(replies, d, vrf.endpoints);
      if !ok then (d1, false) else CreateFolder(replies, d1, Certs, vrf, certs, FileCount(certs))
  }

  function Generate(replies: nat -> Reply, d: Device, vrf: Vrf): (Device, bool) {
    if |vrf.cryptoPh1| < 2 || |vrf.cryptoPh2| < 2 then (d, false)
    else
      var (d1, ok) := GeneratePsk(replies, d, vrf);
      if !ok then (d1, false) else GenerateCerts(replies, d1, vrf)
  }

  /** Errors of a delete are logged and ignored. */
  function DeleteAll(replies: nat -> Reply, d: Device, urls: seq<Resource>): Device {
    if urls == [] then d
    else Send(replies, DeleteAll(replies, d, urls[..|urls| - 1]), Delete(urls[|urls| - 1])).0
  }

  function TakeDown(replies: nat -> Reply, d: Device, vrf: Vrf): Device {
    DeleteAll(replies, d, DeleteUrls(vrf))
  }

  lemma {:induction false} DeleteAllAppend(replies: nat -> Reply, d: Device, a: seq<Resource>, b: seq<Resource>)
    ensures DeleteAll(replies, d, a + b) == DeleteAll(replies, DeleteAll(replies, d, a), b)
  {
    if b == [] {
      assert a + b == a;
    } else {
      assert (a + b)[..|a + b| - 1] == a + b[..|b| - 1];
      DeleteAllAppend(replies, d, a, b[..|b| - 1]);
    }
  }

  function Reversed(s: seq<nat>): (r: seq<nat>)
    ensures |r| == |s|
    ensures forall i :: 0 <= i < |s| ==> r[i] == s[|s| - 1 - i]
  {
    seq(|s|, i requires 0 <= i < |s| => s[|s| - 1 - i])
  }

  /** reverseSlice: a copy, then swaps from the middle outwards. */
  method ReverseSlice(s: array<nat>) returns (a: array<nat>)
    ensures fresh(a) && a[..] == Reversed(s[..])
  {
    a := new nat[s.Length](i requires 0 <= i < s.Length reads s => s[i]);
    var n, i := a.Length, a.Length / 2 - 1;
    while i >= 0
      invariant -1 <= i && 2 * (i + 1) <= n
      invariant forall k :: 0 <= k <= i || n - 1 - i <= k < n ==> a[k] == s[k]
      invariant forall k :: i < k < n - 1 - i ==> a[k] == s[n - 1 - k]
    {
      var opp := n - 1 - i;
      a[i], a[opp] := a[opp], a[i];
      i := i - 1;
    }
  }

  /** The template files by number, last one first. */
  method DeletionOrder() returns (files: array<nat>)
    ensures fresh(files) && files.Length == FILES && forall i :: 0 <= i < FILES ==> files[i] == FILES - 1 - i
  {
    var inOrder := new nat[FILES](i => i);
    files := ReverseSlice(inOrder);
    assert |files[..]| == FILES && forall i :: 0 <= i < FILES ==> files[i] == files[..][i] == inOrder[..][FILES - 1 - i];
  }

  /** The generator, working on one connection to the switch. */
  class Generator {
    const conn: Connection

    constructor (conn: Connection)
      ensures this.conn == conn
    {
      this.conn := conn;
    }

    method DoTemplateFolderCreate(kind: Kind, vrf: Vrf, es: seq<Endpoint>) returns (ok: bool)
      modifies conn
      ensures (conn.View(), ok) == CreateFolder(conn.replies, old(conn.View()), kind, vrf, es, FileCount(es))
    {
      var bgpEndpointsIpv4 := BgpEndpointSubset(es, false);
      var bgpEndpointsIpv6 := BgpEndpointSubset(es, true);
      var bgpEndpoints := bgpEndpointsIpv4 + bgpEndpointsIpv6;
      ghost var n, d0 := FileCount(es), conn.View();
      assert (n == FILES && |bgpEndpoints| > 0) || (n == FILES - 1 && |bgpEndpoints| == 0);
      for file := 0 to FILES
        invariant (conn.View(), true) == CreateFolder(conn.replies, d0, kind, vrf, es, if file <= n then file else n)
      {
        if |bgpEndpoints| == 0 && file == FILES - 1 {
          continue;
        }
        CreateFolderNext(conn.replies, d0, kind, vrf, es, file);
        if !Renders(kind, file, vrf, es) {
          CreateFolderStops(conn.replies, d0, kind, vrf, es, file + 1, n);
          return false;
        }
        ok := conn.TryRequest(Patch(Body(kind, file, vrf, es)));
        if !ok {
          CreateFolderStops(conn.replies, d0, kind, vrf, es, file + 1, n);
          return;
        }
      }
      return true;
    }

    method InsertPkcs12(vrf: Vrf) returns (ok: bool)
      modifies conn
      ensures (conn.View(), ok) == ImportAll(conn.replies, old(conn.View()), vrf.endpoints)
    {
      var es := vrf.endpoints;
      for i := 0 to |es|
        invariant (conn.View(), true) == ImportAll(conn.replies, old(conn.View()), es[..i])
      {
        assert es[..i + 1][..i] == es[..i];
        ok := conn.TryRequest(Import(es[i].id));
        if !ok {
          ImportAllStops(conn.replies, old(conn.View()), es, i + 1);
          return;
        }
      }
      assert es[..|es|] == es;
      return true;
    }

    method GenerateConfigs(vrf: Vrf) returns (ok: bool)
      modifies conn
      ensures (conn.View(), ok) == Generate(conn.replies, old(conn.View()), vrf)
    {
      if |vrf.cryptoPh1| < 2 { return false; }
      if |vrf.cryptoPh2| < 2 { return false; }
      var psk, certs := Subset(vrf.endpoints, Psk), Subset(vrf.endpoints, Certs);
      if |psk| > 0 {
        ok := DoTemplateFolderCreate(Psk, vrf, psk);
        if !ok { return; }
      }
      if |certs| > 0 {
        ok := InsertPkcs12(vrf);
        if !ok { return; }
        ok := DoTemplateFolderCreate(Certs, vrf, certs);
        if !ok { return; }
      }
      return true;
    }

    method DoTemplateFolderDelete(kind: Kind, vrf: Vrf, es: seq<Endpoint>)
      modifies conn
      ensures conn.View() == DeleteAll(conn.replies, old(conn.View()), FolderDeletes(kind, vrf, es, FILES))
    {
      var files := DeletionOrder();
      ghost var all := FolderDeletes(kind, vrf, es, FILES);
      for k := 0 to FILES
        invariant files.Length == FILES && forall i :: 0 <= i < FILES ==> files[i] == FILES - 1 - i
        invariant DeleteAll(conn.replies, conn.View(), FolderDeletes(kind, vrf, es, FILES - k)) ==
          DeleteAll(conn.replies, old(conn.View()), all)
      {
        var file := files[k];
        assert FILES - k == file + 1 && FILES - (k + 1) == file;
        FolderDeletesNext(conn.replies, conn.View(), kind, vrf, es, file);
        DeleteUrlsOneByOne(Urls(kind, file, vrf, es));
      }
    }

    method DeleteUrlsOneByOne(urls: seq<Resource>)
      modifies conn
      ensures conn.View() == DeleteAll(conn.replies, old(conn.View()), urls)
    {
      for i := 0 to |urls|
        invariant conn.View() == DeleteAll(conn.replies, old(conn.View()), urls[..i])
      {
        assert urls[..i + 1][..i] == urls[..i];
        var _ := conn.TryRequest(Delete(urls[i]));
      }
      assert urls[..|urls|] == urls;
    }

    method DeleteConfigs(vrf: Vrf)
      modifies conn
      ensures conn.View() == TakeDown(conn.replies, old(conn.View()), vrf)
    {
      var psk, certs := Subset(vrf.endpoints, Psk), Subset(vrf.endpoints, Certs);
      DeleteAllAppend(conn.replies, conn.View(), KindDeletes(Psk, vrf), KindDeletes(Certs, vrf));
      if |psk| > 0 { DoTemplateFolderDelete(Psk, vrf, psk); }
      if |certs| > 0 { DoTemplateFolderDelete(Certs, vrf, certs); }
    }
  }

  lemma FolderDeletesNext(replies: nat -> Reply, d: Device, kind: Kind, vrf: Vrf, es: seq<Endpoint>, n: nat)
    ensures DeleteAll(replies, d, FolderDeletes(kind, vrf, es, n + 1)) ==
      DeleteAll(replies, DeleteAll(replies, d, Urls(kind, n, vrf, es)), FolderDeletes(kind, vrf, es, n))
  {
    DeleteAllAppend(replies, d, Urls(kind, n, vrf, es), FolderDeletes(kind, vrf, es, n));
  }

  lemma CreateFolderNext(replies: nat -> Reply, d: Device, kind: Kind, vrf: Vrf, es: seq<Endpoint>, n: nat)
    ensures CreateFolder(replies, d, kind, vrf, es, n + 1) ==
      var (d1, ok) := CreateFolder(replies, d, kind, vrf, es, n);
      if !ok || !Renders(kind, n, vrf, es) then (d1, false) else Send(replies, d1, Patch(Body(kind, n, vrf, es)))
  {
  }

  /** A failed file stays the last one, however many there are. */
  lemma {:induction false} CreateFolderStops(replies: nat -> Reply, d: Device, kind: Kind, vrf: Vrf, es: seq<Endpoint>, k: nat, n: nat)
    requires k <= n && !CreateFolder(replies, d, kind, vrf, es, k).1
    ensures CreateFolder(replies, d, kind, vrf, es, n) == CreateFolder(replies, d, kind, vrf, es, k)
    decreases n
  {
    if k < n {
      CreateFolderStops(replies, d, kind, vrf, es, k, n - 1);
    }
  }

  lemma {:induction false} ImportAllStops(replies: nat -> Reply, d: Device, es: seq<Endpoint>, k: nat)
    requires k <= |es| && !ImportAll(replies, d, es[..k]).1
    ensures ImportAll(replies, d, es) == ImportAll(replies, d, es[..k])
    decreases |es|
  {
    if k == |es| {
      assert es[..k] == es;
    } else {
      assert es[..|es| - 1][..k] == es[..k];
      ImportAllStops(replies, d, es[..|es| - 1], k);
    }
  }
}
