/** Taking the hardware VRF down step by step, whatever the switch answers. */
module HardwareRemoval {
  import opened Types
  import opened Switch
  import opened HardwareGenerator
  import opened HardwareProofs

  /** References to own resources come from own resources of later files. */
  ghost predicate Hooked(c: Config, kind: Kind, vrf: Vrf, es: seq<Endpoint>) {
    forall r, y :: r in c && y in c[r] && OwnOf(kind, vrf, es, y) ==> Follows(kind, vrf, es, r, y)
  }

  predicate Follows(kind: Kind, vrf: Vrf, es: seq<Endpoint>, r: Resource, y: Resource) {
    Rank(y) < Rank(r) && OwnOf(kind, vrf, es, r)
  }

  /** Resources of later files come first. */
  ghost predicate LaterFirst(urls: seq<Resource>) {
    forall i, j :: 0 <= i < j < |urls| ==> Rank(urls[i]) >= Rank(urls[j])
  }

  lemma LaterFirstInTwo(a: seq<Resource>, b: seq<Resource>, n: nat)
    requires LaterFirst(b) && (forall r :: r in a ==> Rank(r) == n) && (forall r :: r in b ==> Rank(r) < n)
    ensures LaterFirst(a + b)
  {
    var s := a + b;
    assert forall i :: 0 <= i < |a| ==> s[i] in a;
    assert forall i :: |a| <= i < |s| ==> s[i] == b[i - |a|] && s[i] in b;
  }

  lemma {:induction false} FolderDeletesLaterFirst(kind: Kind, vrf: Vrf, es: seq<Endpoint>, n: nat)
    requires n <= FILES
    ensures LaterFirst(FolderDeletes(kind, vrf, es, n))
  {
    if n > 0 {
      FolderDeletesLaterFirst(kind, vrf, es, n - 1);
      forall r | r in Urls(kind, n - 1, vrf, es) ensures Rank(r) == n - 1 { UrlsMatchBody(kind, n - 1, vrf, es, r); }
      forall r | r in FolderDeletes(kind, vrf, es, n - 1) ensures Rank(r) < n - 1 { FolderDeletesOwn(kind, vrf, es, n - 1, r); }
      LaterFirstInTwo(Urls(kind, n - 1, vrf, es), FolderDeletes(kind, vrf, es, n - 1), n - 1);
    }
  }

  lemma HigherInPrefix(urls: seq<Resource>, k: nat, r: Resource, y: Resource)
    requires LaterFirst(urls) && k <= |urls| && y in urls[..k] && r in urls && Rank(y) < Rank(r)
    ensures r in urls[..k]
  {
    var i :| 0 <= i < |urls| && urls[i] == r;
    var j :| 0 <= j < k && urls[..k][j] == y;
    assert urls[j] == y && i < j;
    assert urls[..k][i] == r;
  }

  /** What refers to a deleted resource has been deleted before it. */
  lemma ReferrerFirst(c: Config, kind: Kind, vrf: Vrf, es: seq<Endpoint>, k: nat, r: Resource, y: Resource)
    requires Hooked(c, kind, vrf, es) && k <= |FolderDeletes(kind, vrf, es, FILES)|
    requires r in c && y in c[r] && y in FolderDeletes(kind, vrf, es, FILES)[..k]
    ensures r in FolderDeletes(kind, vrf, es, FILES)[..k]
  {
    FolderDeletesOwn(kind, vrf, es, FILES, y);
    FolderDeletesOwn(kind, vrf, es, FILES, r);
    assert Follows(kind, vrf, es, r, y);
    RankBelowBgp(r);
    FolderDeletesLaterFirst(kind, vrf, es, FILES);
    HigherInPrefix(FolderDeletes(kind, vrf, es, FILES), k, r, y);
  }

  /** Both kinds of names are kept apart. */
  lemma RefKinds(vrf: Vrf, kind: Kind, kind': Kind, r: Resource, y: Resource)
    requires RefersOwn(vrf, kind, r, y) && OwnOf(kind', vrf, Subset(vrf.endpoints, kind'), y)
    ensures kind == kind'
  {
  }

  /** Nothing on the switch refers to a name of the generator's. */
  ghost predicate Unreferenced(c: Config, vrf: Vrf, kind: Kind) {
    forall r, y :: r in c && y in c[r] ==> !OwnOf(kind, vrf, Subset(vrf.endpoints, kind), y)
  }

  /** However far a deployment got, references to own resources come from own resources of
      later files. */
  lemma PrefixHooked(c: Config, vrf: Vrf, m: nat, kind: Kind)
    requires Unreferenced(c, vrf, kind) && m <= |CreateRequests(vrf)|
    ensures Hooked(ApplyAll(c, CreateRequests(vrf)[..m]), kind, vrf, Subset(vrf.endpoints, kind))
  {
    var es, c' := Subset(vrf.endpoints, kind), ApplyAll(c, CreateRequests(vrf)[..m]);
    forall r, y | r in c' && y in c'[r] && OwnOf(kind, vrf, es, y) ensures Follows(kind, vrf, es, r, y) {
      PrefixRef(c, vrf, m, kind, r, y);
    }
  }

  lemma PrefixRef(c: Config, vrf: Vrf, m: nat, kind: Kind, r: Resource, y: Resource)
    requires Unreferenced(c, vrf, kind) && m <= |CreateRequests(vrf)|
    requires r in ApplyAll(c, CreateRequests(vrf)[..m]) && y in ApplyAll(c, CreateRequests(vrf)[..m])[r]
    requires OwnOf(kind, vrf, Subset(vrf.endpoints, kind), y)
    ensures Follows(kind, vrf, Subset(vrf.endpoints, kind), r, y)
  {
    assert !(r in c && y in c[r]);
    var kind' := NewRef(c, vrf, m, r, y);
    RefKinds(vrf, kind', kind, r, y);
  }

  /** A reference that was not there before comes from a template file. */
  lemma NewRef(c: Config, vrf: Vrf, m: nat, r: Resource, y: Resource) returns (kind: Kind)
    requires m <= |CreateRequests(vrf)| && !(r in c && y in c[r])
    requires r in ApplyAll(c, CreateRequests(vrf)[..m]) && y in ApplyAll(c, CreateRequests(vrf)[..m])[r]
    ensures RefersOwn(vrf, kind, r, y)
  {
    var qs := CreateRequests(vrf)[..m];
    CreateRequestsCreate(vrf);
    assert Creating(qs);
    ApplyAllEffect(c, qs, r);
    var i :| 0 <= i < |qs| && Refers(qs[i], r, y);
    kind := CreateRefers(vrf, i, r, y);
  }

  /** The two folders one after the other. */
  lemma ReferrerAsked(c: Config, vrf: Vrf, j: nat, r: Resource, y: Resource)
    requires Hooked(c, Psk, vrf, Subset(vrf.endpoints, Psk)) && Hooked(c, Certs, vrf, Subset(vrf.endpoints, Certs))
    requires j <= |DeleteUrls(vrf)| && r in c && y in c[r] && y in DeleteUrls(vrf)[..j]
    ensures r in DeleteUrls(vrf)[..j]
  {
    var a, b := KindDeletes(Psk, vrf), KindDeletes(Certs, vrf);
    if y in a[..if j <= |a| then j else |a|] {
      ReferrerFirst(c, Psk, vrf, Subset(vrf.endpoints, Psk), if j <= |a| then j else |a|, r, y);
      PrefixInFirst(a, b, j, r);
    } else {
      PrefixInSecond(a, b, j, y);
      ReferrerFirst(c, Certs, vrf, Subset(vrf.endpoints, Certs), j - |a|, r, y);
      SecondInPrefix(a, b, j, r);
    }
  }

  lemma PrefixInFirst(a: seq<Resource>, b: seq<Resource>, j: nat, r: Resource)
    requires j <= |a + b| && r in a[..if j <= |a| then j else |a|]
    ensures r in (a + b)[..j]
  {
    var n := if j <= |a| then j else |a|;
    var i :| 0 <= i < n && a[..n][i] == r;
    assert (a + b)[..j][i] == r;
  }

  lemma PrefixInSecond(a: seq<Resource>, b: seq<Resource>, j: nat, y: Resource)
    requires j <= |a + b| && y in (a + b)[..j] && y !in a[..if j <= |a| then j else |a|]
    ensures j > |a| && y in b[..j - |a|]
  {
    if j <= |a| {
      TakeFirst(a, b, j);
    } else {
      assert a[..|a|] == a && (a + b)[..j] == a + b[..j - |a|];
    }
  }

  lemma TakeFirst(a: seq<Resource>, b: seq<Resource>, j: nat)
    requires j <= |a|
    ensures (a + b)[..j] == a[..j]
  {
  }

  lemma SecondInPrefix(a: seq<Resource>, b: seq<Resource>, j: nat, r: Resource)
    requires |a| < j <= |a + b| && r in b[..j - |a|]
    ensures r in (a + b)[..j]
  {
    var i :| 0 <= i < j - |a| && b[..j - |a|][i] == r;
    assert (a + b)[..j][|a| + i] == r;
  }

  /** The switch has accepted the delete of this resource between two states. */
  predicate WasDeleted(d: Device, d': Device, r: Resource) {
    exists i :: |d.log| <= i < |d'.log| && d'.log[i] == Delete(r)
  }

  /** What a list of deletes does, accepted or not. */
  lemma {:induction false} DeleteAllEffect(replies: nat -> Reply, d: Device, urls: seq<Resource>, r: Resource)
    ensures var d' := DeleteAll(replies, d, urls);
      && |d.log| <= |d'.log|
      && (r in d'.config <==> r in d.config && !WasDeleted(d, d', r))
      && (r in d'.config ==> d'.config[r] == d.config[r])
      && (WasDeleted(d, d', r) ==> r in urls)
  {
    if urls != [] {
      var front, last := urls[..|urls| - 1], urls[|urls| - 1];
      var d1, d' := DeleteAll(replies, d, front), DeleteAll(replies, d, urls);
      DeleteAllEffect(replies, d, front, r);
      SendOutcome(replies, d1, Delete(last));
      OneMoreDeleted(d, d1, d', last, r);
    }
  }

  lemma OneMoreDeleted(d: Device, d1: Device, d': Device, last: Resource, r: Resource)
    requires |d.log| <= |d1.log| && (d'.log == d1.log || d'.log == d1.log + [Delete(last)])
    ensures WasDeleted(d, d', r) <==> WasDeleted(d, d1, r) || (d'.log != d1.log && r == last)
  {
    if WasDeleted(d, d1, r) {
      var i :| |d.log| <= i < |d1.log| && d1.log[i] == Delete(r);
      assert d'.log[i] == Delete(r);
    }
    if d'.log != d1.log && r == last { assert d'.log[|d1.log|] == Delete(r); }
  }

  /** A resource whose delete was asked for and refused refers to one whose delete was
      accepted. */
  predicate LeftDangling(vrf: Vrf, j: nat, d: Device, d': Device, r: Resource, y: Resource)
    requires j <= |DeleteUrls(vrf)|
  {
    r in d.config && y in d.config[r] && r in DeleteUrls(vrf)[..j] && !WasDeleted(d, d', r) && WasDeleted(d, d', y)
  }

  /** After any prefix of the creating requests and any prefix of the deletes, whatever the
      switch answers to them: no resource refers to a missing one if and only if no refused
      delete of a resource was followed by an accepted one of what it refers to. */
  lemma DeleteStepsExactly(c: Config, replies: nat -> Reply, d: Device, vrf: Vrf, m: nat, j: nat)
    requires Closed(c) && Unreferenced(c, vrf, Psk) && Unreferenced(c, vrf, Certs)
    requires m <= |CreateRequests(vrf)| && d.config == ApplyAll(c, CreateRequests(vrf)[..m])
    requires j <= |DeleteUrls(vrf)|
    ensures var d' := DeleteAll(replies, d, DeleteUrls(vrf)[..j]);
      Closed(d'.config) <==> !exists r, y :: LeftDangling(vrf, j, d, d', r, y)
  {
    var d' := DeleteAll(replies, d, DeleteUrls(vrf)[..j]);
    CreateStepsClosed(c, vrf, m);
    PrefixHooked(c, vrf, m, Psk);
    PrefixHooked(c, vrf, m, Certs);
    if !Closed(d'.config) {
      var r, y :| r in d'.config && y in d'.config[r] && y !in d'.config;
      DanglingFound(replies, d, vrf, j, r, y);
    }
    if r, y :| LeftDangling(vrf, j, d, d', r, y) { DanglingOpen(replies, d, vrf, j, r, y); }
  }

  lemma DanglingOpen(replies: nat -> Reply, d: Device, vrf: Vrf, j: nat, r: Resource, y: Resource)
    requires j <= |DeleteUrls(vrf)| && LeftDangling(vrf, j, d, DeleteAll(replies, d, DeleteUrls(vrf)[..j]), r, y)
    ensures !Closed(DeleteAll(replies, d, DeleteUrls(vrf)[..j]).config)
  {
    DeleteAllEffect(replies, d, DeleteUrls(vrf)[..j], r);
    DeleteAllEffect(replies, d, DeleteUrls(vrf)[..j], y);
    var c' := DeleteAll(replies, d, DeleteUrls(vrf)[..j]).config;
    assert r in c' && y in c'[r] && y !in c';
  }

  lemma DanglingFound(replies: nat -> Reply, d: Device, vrf: Vrf, j: nat, r: Resource, y: Resource)
    requires Closed(d.config) && j <= |DeleteUrls(vrf)|
    requires Hooked(d.config, Psk, vrf, Subset(vrf.endpoints, Psk)) && Hooked(d.config, Certs, vrf, Subset(vrf.endpoints, Certs))
    requires var c' := DeleteAll(replies, d, DeleteUrls(vrf)[..j]).config; r in c' && y in c'[r] && y !in c'
    ensures LeftDangling(vrf, j, d, DeleteAll(replies, d, DeleteUrls(vrf)[..j]), r, y)
  {
    DeleteAllEffect(replies, d, DeleteUrls(vrf)[..j], r);
    DeleteAllEffect(replies, d, DeleteUrls(vrf)[..j], y);
    ReferrerAsked(d.config, vrf, j, r, y);
  }

  /** A switch that refuses nothing has no dangling reference at any step. */
  lemma DeleteStepsClosed(c: Config, replies: nat -> Reply, d: Device, vrf: Vrf, m: nat, j: nat)
    requires Closed(c) && Unreferenced(c, vrf, Psk) && Unreferenced(c, vrf, Certs) && Willing(replies)
    requires m <= |CreateRequests(vrf)| && d.config == ApplyAll(c, CreateRequests(vrf)[..m])
    requires j <= |DeleteUrls(vrf)|
    ensures Closed(DeleteAll(replies, d, DeleteUrls(vrf)[..j]).config)
  {
    var urls := DeleteUrls(vrf)[..j];
    DeleteStepsExactly(c, replies, d, vrf, m, j);
    DeleteAllWilling(replies, d, urls);
    forall r, y ensures !LeftDangling(vrf, j, d, DeleteAll(replies, d, urls), r, y) {
      DeleteAllEffect(replies, d, urls, r);
    }
  }

  /** What a creating request makes a resource refer to, it still refers to after the rest. */
  lemma {:induction false} ReferenceStays(c: Config, qs: seq<Request>, i: nat, r: Resource, y: Resource)
    requires Creating(qs) && i < |qs| && Refers(qs[i], r, y)
    ensures r in ApplyAll(c, qs) && y in ApplyAll(c, qs)[r]
    decreases |qs|
  {
    if i < |qs| - 1 {
      ReferenceStays(c, qs[..|qs| - 1], i, r, y);
    }
  }

  /** A reply other than lock-denied decides at once. */
  lemma SendOnce(replies: nat -> Reply, d: Device, q: Request)
    requires replies(d.clock) != LockDenied
    ensures var (d', ok) := Send(replies, d, q);
      && d'.clock == d.clock + 1 && (ok <==> replies(d.clock) == Switch.Accepted)
      && d'.log == if ok then d.log + [q] else d.log
  {
  }

  lemma DeleteAllNext(replies: nat -> Reply, d: Device, urls: seq<Resource>, k: nat)
    requires k < |urls|
    ensures DeleteAll(replies, d, urls[..k + 1]) == Send(replies, DeleteAll(replies, d, urls[..k]), Delete(urls[k])).0
  {
    assert urls[..k + 1][..k] == urls[..k];
  }

  lemma DeleteOnce(replies: nat -> Reply, d: Device, urls: seq<Resource>, k: nat, log: seq<Request>, ok: bool)
    requires k < |urls| && ReplyAt(replies, d.clock, k) == if ok then Switch.Accepted else OtherError
    requires var d1 := DeleteAll(replies, d, urls[..k]); d1.clock == d.clock + k && d1.log == log
    ensures var d2 := DeleteAll(replies, d, urls[..k + 1]);
      d2.clock == d.clock + k + 1 && d2.log == if ok then log + [Delete(urls[k])] else log
  {
    DeleteAllNext(replies, d, urls, k);
    SendOnce(replies, DeleteAll(replies, d, urls[..k]), Delete(urls[k]));
  }

  /** Four deletes, of which the switch refuses the second. */
  lemma SecondRefused(replies: nat -> Reply, d: Device, urls: seq<Resource>)
    requires |urls| == 4 && SecondReplyBad(replies, d.clock)
    ensures DeleteAll(replies, d, urls).log == d.log + [Delete(urls[0]), Delete(urls[2]), Delete(urls[3])]
  {
    var l1 := d.log + [Delete(urls[0])];
    var l3 := l1 + [Delete(urls[2])];
    DeleteOnce(replies, d, urls, 0, d.log, true);
    DeleteOnce(replies, d, urls, 1, l1, false);
    DeleteOnce(replies, d, urls, 2, l1, true);
    DeleteOnce(replies, d, urls, 3, l3, true);
    assert urls[..4] == urls;
  }

  /** The second of the next four replies is an error, the others are fine. */
  predicate SecondReplyBad(replies: nat -> Reply, clock: nat) {
    && ReplyAt(replies, clock, 0) == Switch.Accepted && ReplyAt(replies, clock, 1) == OtherError
    && ReplyAt(replies, clock, 2) == Switch.Accepted && ReplyAt(replies, clock, 3) == Switch.Accepted
  }

  lemma FirstFourUrls(vrf: Vrf, e: Endpoint)
    requires Subset(vrf.endpoints, Psk) == [e]
    ensures |DeleteUrls(vrf)| >= 4
    ensures DeleteUrls(vrf)[..4] == [Bgp(vrf.localAs), Tunnel(e.id), Ipv6Routing, IpsecProfile(Psk, e.id)]
  {
    var es := [e];
    var f := (n: nat) => FolderDeletes(Psk, vrf, es, n);
    assert f(6) == [IpsecProfile(Psk, e.id)] + f(5);
    assert f(7) == [Ipv6Routing] + f(6);
    assert f(8) == [Tunnel(e.id)] + f(7);
    assert KindDeletes(Psk, vrf) == f(9) == [Bgp(vrf.localAs)] + f(8);
  }

  lemma TunnelRefers(vrf: Vrf, e: Endpoint)
    requires Subset(vrf.endpoints, Psk) == [e]
    ensures |CreateRequests(vrf)| > 7 && Refers(CreateRequests(vrf)[7], Tunnel(e.id), IpsecProfile(Psk, e.id))
  {
    assert PskRequests(vrf) == FolderPatches(Psk, vrf, [e]);
    assert CreateRequests(vrf)[7] == PskRequests(vrf)[7] == Patch(Body(Psk, 7, vrf, [e]));
    assert e in [e] && e.id in Ids([e]);
  }

  /** It happens to every VRF with one psk endpoint: when the switch refuses to delete the
      tunnel and goes along with the rest, the tunnel is left without its IPsec profile. */
  lemma RefusedDeleteDangles(c: Config, replies: nat -> Reply, d: Device, vrf: Vrf, e: Endpoint)
    requires Subset(vrf.endpoints, Psk) == [e] && d.config == ApplyAll(c, CreateRequests(vrf))
    requires SecondReplyBad(replies, d.clock)
    ensures |DeleteUrls(vrf)| >= 4 && !Closed(DeleteAll(replies, d, DeleteUrls(vrf)[..4]).config)
  {
    FirstFourUrls(vrf, e);
    TunnelRefers(vrf, e);
    CreateRequestsCreate(vrf);
    ReferenceStays(c, CreateRequests(vrf), 7, Tunnel(e.id), IpsecProfile(Psk, e.id));
    SecondRefused(replies, d, DeleteUrls(vrf)[..4]);
    TunnelDangles(replies, d, vrf, DeleteUrls(vrf)[..4], Tunnel(e.id), IpsecProfile(Psk, e.id));
  }

  lemma TunnelDangles(replies: nat -> Reply, d: Device, vrf: Vrf, urls: seq<Resource>, r: Resource, y: Resource)
    requires |DeleteUrls(vrf)| >= 4 && urls == DeleteUrls(vrf)[..4] && urls[0] != r && urls[1] == r && urls[2] != r && urls[3] == y && r != y
    requires r in d.config && y in d.config[r]
    requires DeleteAll(replies, d, urls).log == d.log + [Delete(urls[0]), Delete(urls[2]), Delete(urls[3])]
    ensures !Closed(DeleteAll(replies, d, urls).config)
  {
    var d' := DeleteAll(replies, d, urls);
    assert d'.log[|d.log| + 2] == Delete(y);
    assert LeftDangling(vrf, 4, d, d', r, y);
    DanglingOpen(replies, d, vrf, 4, r, y);
  }
}
