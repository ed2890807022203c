/** The environment that executeSupervisorTemplate prints for a VRF's start script, and
    how the shell and awk take it apart again. */
module SupervisorEnv {
  import opened Text
  import opened Types

  datatype Environment = Environment(
    physIf: string, vrfId: string, xfrmIp: string, xfrmPeer: string, nat_: string,
    vlansIps: string, endpointIds: string, disablePeerIps: string)

  /** White space to strings.TrimSpace and strings.Fields. */
  const GO_BLANKS := {
    ' ', '\t', '\n', '\U{0B}', '\U{0C}', '\r', '\U{85}', '\U{A0}', '\U{1680}',
    '\U{2000}', '\U{2001}', '\U{2002}', '\U{2003}', '\U{2004}', '\U{2005}', '\U{2006}', '\U{2007}',
    '\U{2008}', '\U{2009}', '\U{200A}', '\U{2028}', '\U{2029}', '\U{202F}', '\U{205F}', '\U{3000}'}

  predicate TrimsToNothing(s: string) {
    forall i :: 0 <= i < |s| ==> s[i] in GO_BLANKS
  }

  /** How a template prints a *bool. */
  function PrintFlag(b: Option<bool>): string {
    match b
    case None => "<nil>"
    case Some(v) => if v then "true" else "false"
  }

  function PeerWord(e: Endpoint): string { if e.peerIp == "" then "empty" else e.peerIp }

  function NatWord(e: Endpoint): string { if e.nat_ then "YES" else "NO" }

  function LocalIps(es: seq<Endpoint>): (r: seq<string>)
    ensures |r| == |es| && forall i :: 0 <= i < |es| ==> r[i] == es[i].localIp
  {
    seq(|es|, i requires 0 <= i < |es| => es[i].localIp)
  }

  function PeerWords(es: seq<Endpoint>): (r: seq<string>)
    ensures |r| == |es| && forall i :: 0 <= i < |es| ==> r[i] == PeerWord(es[i])
  {
    seq(|es|, i requires 0 <= i < |es| => PeerWord(es[i]))
  }

  function NatWords(es: seq<Endpoint>): (r: seq<string>)
    ensures |r| == |es| && forall i :: 0 <= i < |es| ==> r[i] == NatWord(es[i])
  {
    seq(|es|, i requires 0 <= i < |es| => NatWord(es[i]))
  }

  function Ids(es: seq<Endpoint>): (r: seq<string>)
    ensures |r| == |es| && forall i :: 0 <= i < |es| ==> r[i] == Decimal(es[i].id)
  {
    seq(|es|, i requires 0 <= i < |es| => Decimal(es[i].id))
  }

  function VlansText(vlans: seq<Vlan>): string {
    if vlans == [] then ""
    else VlansText(vlans[..|vlans| - 1]) + VlanText(vlans[|vlans| - 1])
  }

  function VlanText(v: Vlan): string { Decimal(v.vlan) + " " + v.lanIp + " " }

  /** None stands for the error on a VLAN without an address. */
  function Environ(vrf: Vrf): Option<Environment> {
    if exists i :: 0 <= i < |vrf.vlans| && TrimsToNothing(vrf.vlans[i].lanIp) then None
    else Some(Environment(
      vrf.physicalInterface, Decimal(vrf.id),
      Join(LocalIps(vrf.endpoints), " "), Join(PeerWords(vrf.endpoints), " "), Join(NatWords(vrf.endpoints), " "),
      VlansText(vrf.vlans), Join(Ids(vrf.endpoints), " "), PrintFlag(vrf.disablePeerIps)))
  }

  lemma {:induction false} NoFields(s: string)
    ensures TrimsToNothing(s) <==> Words(s, GO_BLANKS) == []
  {
    if s != "" && s[0] in GO_BLANKS {
      NoFields(s[1..]);
      assert forall i :: 1 <= i < |s| ==> s[i] == s[1..][i - 1];
    }
  }

  /** Printing fails exactly on a VLAN whose address has no field in it. */
  lemma EnvironFails(vrf: Vrf)
    ensures Environ(vrf) == None <==> exists i :: 0 <= i < |vrf.vlans| && Words(vrf.vlans[i].lanIp, GO_BLANKS) == []
  {
    forall i | 0 <= i < |vrf.vlans|
      ensures TrimsToNothing(vrf.vlans[i].lanIp) <==> Words(vrf.vlans[i].lanIp, GO_BLANKS) == []
    {
      NoFields(vrf.vlans[i].lanIp);
    }
  }

  /** The first loop of executeSupervisorTemplate, which builds up a text. */
  method PrintVlans(vlans: seq<Vlan>) returns (r: Option<string>)
    ensures r == if exists i :: 0 <= i < |vlans| && TrimsToNothing(vlans[i].lanIp) then None else Some(VlansText(vlans))
  {
    var vlansStr := "";
    for i := 0 to |vlans|
      invariant forall j :: 0 <= j < i ==> !TrimsToNothing(vlans[j].lanIp)
      invariant vlansStr == VlansText(vlans[..i])
    {
      if TrimsToNothing(vlans[i].lanIp) { return None; }
      vlansStr := vlansStr + VlanText(vlans[i]);
      assert vlans[..i + 1][..i] == vlans[..i];
    }
    assert vlans[..|vlans|] == vlans;
    r := Some(vlansStr);
  }

  /** The second loop, which appends to four lists. */
  method ListEndpoints(es: seq<Endpoint>)
    returns (localIps: seq<string>, peerIps: seq<string>, nats: seq<string>, ids: seq<string>)
    ensures localIps == LocalIps(es) && peerIps == PeerWords(es) && nats == NatWords(es) && ids == Ids(es)
  {
    localIps, peerIps, nats, ids := [], [], [], [];
    for i := 0 to |es|
      invariant |localIps| == |peerIps| == |nats| == |ids| == i
      invariant forall j :: 0 <= j < i ==> localIps[j] == es[j].localIp && peerIps[j] == PeerWord(es[j])
      invariant forall j :: 0 <= j < i ==> nats[j] == NatWord(es[j]) && ids[j] == Decimal(es[j].id)
    {
      var e := es[i];
      localIps := localIps + [e.localIp];
      peerIps := peerIps + [if e.peerIp == "" then "empty" else e.peerIp];
      ids := ids + [Decimal(e.id)];
      nats := nats + [if e.nat_ then "YES" else "NO"];
    }
  }

  method ExecuteSupervisorTemplate(vrf: Vrf) returns (r: Option<Environment>)
    ensures r == Environ(vrf)
  {
    var vlansStr := PrintVlans(vrf.vlans);
    if vlansStr.None? { return None; }
    var localIps, peerIps, nats, ids := ListEndpoints(vrf.endpoints);
    r := Some(Environment(
      vrf.physicalInterface, Decimal(vrf.id), Join(localIps, " "), Join(peerIps, " "), Join(nats, " "),
      vlansStr.value, Join(ids, " "), PrintFlag(vrf.disablePeerIps)));
  }

  /** Blanks of the shell's word splitting and of awk's fields. */
  const SHELL_BLANKS := {' ', '\t', '\n'}

  function ShellWords(text: string): (ws: seq<string>)
    ensures forall w :: w in ws ==> IsWord(w, SHELL_BLANKS)
  {
    Words(text, SHELL_BLANKS)
  }

  /** `echo $TEXT | awk '{print $k}'`: echo joins the words with single blanks, and awk
      prints the k-th field, or nothing when there is none. */
  function AwkField(text: string, k: nat): string {
    var fields := ShellWords(Join(ShellWords(text), " "));
    if 1 <= k <= |fields| then fields[k - 1] else ""
  }

  /** The script walks its word array two at a time; a missing second word is empty. */
  function Pairs(ws: seq<string>): (ps: seq<(string, string)>) {
    if ws == [] then []
    else if |ws| == 1 then [(ws[0], "")]
    else [(ws[0], ws[1])] + Pairs(ws[2..])
  }

  /** Everything the YANG model accepts as an IPv4 or IPv6 address, with or without a
      prefix length, is made of these characters. */
  predicate IsAddressChar(c: char) {
    IsDigit(c) || 'a' <= c <= 'f' || 'A' <= c <= 'F' || c == '.' || c == ':' || c == '/'
  }

  predicate IsAddress(s: string) {
    s != "" && forall i :: 0 <= i < |s| ==> IsAddressChar(s[i])
  }

  predicate ValidAddresses(vrf: Vrf) {
    && (forall i :: 0 <= i < |vrf.vlans| ==> IsAddress(vrf.vlans[i].lanIp))
    && (forall i :: 0 <= i < |vrf.endpoints| ==>
          IsAddress(vrf.endpoints[i].localIp) && (vrf.endpoints[i].peerIp == "" || IsAddress(vrf.endpoints[i].peerIp)))
  }

  lemma AddressIsWord(s: string)
    requires IsAddress(s)
    ensures IsWord(s, SHELL_BLANKS) && !TrimsToNothing(s)
  {
    assert IsAddressChar(s[0]);
  }

  lemma DecimalIsWord(n: nat)
    ensures IsWord(Decimal(n), SHELL_BLANKS)
  {
    var s := Decimal(n);
    assert forall i :: 0 <= i < |s| ==> IsDigit(s[i]);
  }

  /** Printing words with blanks between them and reading them back. */
  lemma WordsSurvive(ws: seq<string>)
    requires forall i :: 0 <= i < |ws| ==> IsWord(ws[i], SHELL_BLANKS)
    ensures ShellWords(Join(ws, " ")) == ws
    ensures forall k :: 1 <= k <= |ws| ==> AwkField(Join(ws, " "), k) == ws[k - 1]
  {
    WordsOfJoin(ws, ' ', SHELL_BLANKS);
  }

  function VlanPairs(vlans: seq<Vlan>): (ps: seq<(string, string)>)
    ensures |ps| == |vlans|
    ensures forall i :: 0 <= i < |vlans| ==> ps[i] == (Decimal(vlans[i].vlan), vlans[i].lanIp)
  {
    seq(|vlans|, i requires 0 <= i < |vlans| => (Decimal(vlans[i].vlan), vlans[i].lanIp))
  }

  lemma {:induction false} VlansTextFront(v: Vlan, rest: seq<Vlan>)
    ensures VlansText([v] + rest) == VlanText(v) + VlansText(rest)
  {
    var vs := [v] + rest;
    if rest == [] {
      assert vs == [v] && vs[..0] == [];
    } else {
      var front, last := rest[..|rest| - 1], rest[|rest| - 1];
      VlansTextFront(v, front);
      assert vs[..|vs| - 1] == [v] + front && vs[|vs| - 1] == last;
      assert VlansText(rest) == VlansText(front) + VlanText(last);
      assert VlansText(vs) == VlansText([v] + front) + VlanText(last);
    }
  }

  /** Word splitting VLANS_IPS and pairing the words yields the VLANs. */
  lemma {:induction false} VlansSurvive(vlans: seq<Vlan>)
    requires forall i :: 0 <= i < |vlans| ==> IsAddress(vlans[i].lanIp)
    ensures Pairs(ShellWords(VlansText(vlans))) == VlanPairs(vlans)
  {
    if vlans != [] {
      var v, rest := vlans[0], vlans[1..];
      assert vlans == [v] + rest;
      VlansTextFront(v, rest);
      VlanSurvives(v, VlansText(rest));
      VlansSurvive(rest);
      PairsCons(Decimal(v.vlan), v.lanIp, ShellWords(VlansText(rest)));
    }
  }

  lemma PairsCons(a: string, b: string, ws: seq<string>)
    ensures Pairs([a, b] + ws) == [(a, b)] + Pairs(ws)
  {
    assert ([a, b] + ws)[2..] == ws;
  }

  lemma TwoWords(a: string, b: string, tail: string)
    ensures a + " " + b + " " + tail == a + [' '] + (b + [' '] + tail)
  {
    assert " " == [' '];
  }

  lemma VlanSurvives(v: Vlan, tail: string)
    requires IsAddress(v.lanIp)
    ensures ShellWords(VlanText(v) + tail) == [Decimal(v.vlan), v.lanIp] + ShellWords(tail)
  {
    AddressIsWord(v.lanIp);
    DecimalIsWord(v.vlan);
    var rest := v.lanIp + [' '] + tail;
    TwoWords(Decimal(v.vlan), v.lanIp, tail);
    WordsConsBlank(v.lanIp, ' ', tail, SHELL_BLANKS);
    WordsConsBlank(Decimal(v.vlan), ' ', rest, SHELL_BLANKS);
  }

  /** The environment and the script undo each other: the VLAN pairs come back, the k-th
      words of all four endpoint lists describe endpoint k, a missing peer address included,
      and interface, id and flag are the VRF's. */
  lemma EnvironmentRoundTrip(vrf: Vrf)
    requires ValidAddresses(vrf)
    ensures Environ(vrf).Some?
    ensures DescribesVrf(Environ(vrf).value, vrf)
  {
    EnvironSome(vrf);
    VlansSurvive(vrf.vlans);
    EndpointWords(vrf);
    EndpointsSurvive(vrf.endpoints);
  }

  /** What an environment tells the script about a VRF. */
  predicate DescribesVrf(env: Environment, vrf: Vrf) {
    && env.physIf == vrf.physicalInterface && env.vrfId == Decimal(vrf.id)
    && env.disablePeerIps == (match vrf.disablePeerIps case None => "<nil>" case Some(b) => if b then "true" else "false")
    && |Pairs(ShellWords(env.vlansIps))| == |vrf.vlans|
    && (forall i :: 0 <= i < |vrf.vlans| ==> Pairs(ShellWords(env.vlansIps))[i] == (Decimal(vrf.vlans[i].vlan), vrf.vlans[i].lanIp))
    && |ShellWords(env.xfrmIp)| == |vrf.endpoints|
    && forall k :: 1 <= k <= |vrf.endpoints| ==>
         var e := vrf.endpoints[k - 1];
         && AwkField(env.xfrmIp, k) == e.localIp
         && AwkField(env.xfrmPeer, k) == (if e.peerIp == "" then "empty" else e.peerIp)
         && AwkField(env.nat_, k) == (if e.nat_ then "YES" else "NO")
         && AwkField(env.endpointIds, k) == Decimal(e.id)
  }

  lemma EnvironSome(vrf: Vrf)
    requires ValidAddresses(vrf)
    ensures Environ(vrf).Some?
  {
    forall i | 0 <= i < |vrf.vlans| ensures !TrimsToNothing(vrf.vlans[i].lanIp) {
      AddressIsWord(vrf.vlans[i].lanIp);
    }
  }

  lemma EndpointWords(vrf: Vrf)
    requires ValidAddresses(vrf)
    ensures var es := vrf.endpoints;
      forall i :: 0 <= i < |es| ==>
        && IsWord(es[i].localIp, SHELL_BLANKS) && IsWord(PeerWord(es[i]), SHELL_BLANKS)
        && IsWord(NatWord(es[i]), SHELL_BLANKS) && IsWord(Decimal(es[i].id), SHELL_BLANKS)
  {
    var es := vrf.endpoints;
    forall i | 0 <= i < |es|
      ensures IsWord(es[i].localIp, SHELL_BLANKS) && IsWord(PeerWord(es[i]), SHELL_BLANKS)
      ensures IsWord(NatWord(es[i]), SHELL_BLANKS) && IsWord(Decimal(es[i].id), SHELL_BLANKS)
    {
      AddressIsWord(es[i].localIp);
      if es[i].peerIp != "" { AddressIsWord(es[i].peerIp); }
      DecimalIsWord(es[i].id);
    }
  }

  lemma EndpointsSurvive(es: seq<Endpoint>)
    requires forall i :: 0 <= i < |es| ==>
      && IsWord(es[i].localIp, SHELL_BLANKS) && IsWord(PeerWord(es[i]), SHELL_BLANKS)
      && IsWord(NatWord(es[i]), SHELL_BLANKS) && IsWord(Decimal(es[i].id), SHELL_BLANKS)
    ensures |ShellWords(Join(LocalIps(es), " "))| == |es|
    ensures forall k :: 1 <= k <= |es| ==>
      && AwkField(Join(LocalIps(es), " "), k) == es[k - 1].localIp
      && AwkField(Join(PeerWords(es), " "), k) == PeerWord(es[k - 1])
      && AwkField(Join(NatWords(es), " "), k) == NatWord(es[k - 1])
      && AwkField(Join(Ids(es), " "), k) == Decimal(es[k - 1].id)
  {
    WordsSurvive(LocalIps(es));
    WordsSurvive(PeerWords(es));
    WordsSurvive(NatWords(es));
    WordsSurvive(Ids(es));
  }
}
