/** Monitoring of software VRFs, config/strongswan.go: connection names carry the
    client name and the endpoint id, and both are recovered from the name. */
module Monitoring {
  import opened Text
  import opened Crypto

  datatype Conn = Conn(key: string, localAddr: string, remoteAddr: string)

  datatype Sa = Sa(key: string, state: string)

  datatype Seen = Seen(localAddr: string, remoteAddr: string, status: string, id: nat)

  datatype Monitored = Monitored(localIp: string, peerIp: string, status: string, id: nat)

  /** The connection name that the strongSwan template prints for an endpoint. */
  function ConnectionKey(client: string, id: nat): string { client + ['_'] + Decimal(id) }

  /** Endpoint ids are 32 bits wide. */
  const ID_LIMIT := 0x1_0000_0000

  function EndpointIdFromKey(key: string): Option<int> {
    Atoi(Last(Split(key, '_')))
  }

  /** The conversion to 32 bits. */
  function ToId(n: int): (id: nat)
    ensures id < ID_LIMIT
    ensures 0 <= n < ID_LIMIT ==> id == n
  {
    n % ID_LIMIT
  }

  /** The id comes back for every client name, underscores included. */
  lemma IdRecovered(client: string, id: nat)
    requires id < ID_LIMIT
    ensures EndpointIdFromKey(ConnectionKey(client, id)) == Some(id)
  {
    var d := Decimal(id);
    assert forall i :: 0 <= i < |d| ==> IsDigit(d[i]);
    assert '_' !in d;
    SplitLast(client, '_', d);
    AtoiOfDecimal(id);
  }

  /** list-conns: a name without a number at its end is an error. */
  function Listed(conns: seq<Conn>): Result<map<string, Seen>> {
    if conns == [] then Ok(map[])
    else
      var front :- Listed(conns[..|conns| - 1]);
      var c := conns[|conns| - 1];
      match EndpointIdFromKey(c.key)
      case None => Err
      case Some(id) => Ok(front[c.key := Seen(c.localAddr, c.remoteAddr, "DOWN", ToId(id))])
  }

  /** list-sas: the state goes into the entry of that name, and there has to be one. */
  function WithStates(seen: map<string, Seen>, sas: seq<Sa>): Result<map<string, Seen>> {
    if sas == [] then Ok(seen)
    else
      var front :- WithStates(seen, sas[..|sas| - 1]);
      var sa := sas[|sas| - 1];
      if sa.key !in front then Panic else Ok(front[sa.key := front[sa.key].(status := sa.state)])
  }

  method GetStrongswanState(conns: seq<Conn>, sas: seq<Sa>) returns (r: Result<map<string, Seen>>)
    ensures Listed(conns).Ok? ==> r == WithStates(Listed(conns).value, sas)
    ensures !Listed(conns).Ok? ==> r == Err
  {
    var endpoints: map<string, Seen> := map[];
    for i := 0 to |conns|
      invariant Listed(conns[..i]) == Ok(endpoints)
    {
      assert conns[..i + 1][..i] == conns[..i];
      var id := EndpointIdFromKey(conns[i].key);
      if id.None? {
        ListedStops(conns, i + 1);
        return Err;
      }
      endpoints := endpoints[conns[i].key := Seen(conns[i].localAddr, conns[i].remoteAddr, "DOWN", ToId(id.value))];
    }
    assert conns[..|conns|] == conns;
    ghost var listed := endpoints;
    for i := 0 to |sas|
      invariant WithStates(listed, sas[..i]) == Ok(endpoints)
    {
      assert sas[..i + 1][..i] == sas[..i];
      if sas[i].key !in endpoints {
        WithStatesStops(listed, sas, i + 1);
        return Panic;
      }
      endpoints := endpoints[sas[i].key := endpoints[sas[i].key].(status := sas[i].state)];
    }
    assert sas[..|sas|] == sas;
    return Ok(endpoints);
  }

  lemma {:induction false} ListedStops(conns: seq<Conn>, k: nat)
    requires k <= |conns| && Listed(conns[..k]) == Err
    ensures Listed(conns) == Err
  {
    if k == |conns| {
      assert conns[..k] == conns;
    } else {
      assert conns[..|conns| - 1][..k] == conns[..k];
      ListedStops(conns[..|conns| - 1], k);
    }
  }

  lemma {:induction false} WithStatesStops(seen: map<string, Seen>, sas: seq<Sa>, k: nat)
    requires k <= |sas| && WithStates(seen, sas[..k]) == Panic
    ensures WithStates(seen, sas) == Panic
  {
    if k == |sas| {
      assert sas[..k] == sas;
    } else {
      assert sas[..|sas| - 1][..k] == sas[..k];
      WithStatesStops(seen, sas[..|sas| - 1], k);
    }
  }

  function NormalizeStatus(status: string): string {
    if status == "ESTABLISHED" || status == "crypto-sa-status-active" then "up" else "down"
  }

  function NormalizeLocalIp(localIp: string, remoteIp: string): string {
    if localIp == "%any" then if ':' in remoteIp then "::" else "0.0.0.0" else localIp
  }

  function Entry(s: Seen): Monitored {
    Monitored(NormalizeLocalIp(s.localAddr, s.remoteAddr), s.remoteAddr, NormalizeStatus(s.status), s.id)
  }

  /** The text that connection names are searched for: the first dash replaced. */
  function SearchName(client: string): string { ReplaceFirst(client, '-', '_') }

  /** Exactly the matching connections are reported, each under its id. */
  ghost predicate IsReport(seen: map<string, Seen>, name: string, r: map<nat, Monitored>) {
    && (forall k :: k in seen && Contains(k, name) ==> seen[k].id in r)
    && (forall id :: id in r ==> ReportedFrom(seen, name, r[id], id))
  }

  ghost predicate ReportedFrom(seen: map<string, Seen>, name: string, m: Monitored, id: nat) {
    exists k :: k in seen && Contains(k, name) && seen[k].id == id && m == Entry(seen[k])
  }

  /** GetMonitoring's loop, in whatever order the map is walked. */
  method GetMonitoring(client: string, seen: map<string, Seen>) returns (r: map<nat, Monitored>)
    ensures IsReport(seen, SearchName(client), r)
  {
    var name := SearchName(client);
    r := map[];
    var todo := seen.Keys;
    while todo != {}
      invariant todo <= seen.Keys
      invariant forall k :: k in seen && k !in todo && Contains(k, name) ==> seen[k].id in r
      invariant forall id :: id in r ==> ReportedFrom(seen, name, r[id], id)
      decreases |todo|
    {
      var k :| k in todo;
      todo := todo - {k};
      var found := Contains(k, name);
      if found {
        r := r[seen[k].id := Entry(seen[k])];
        assert ReportedFrom(seen, name, r[seen[k].id], seen[k].id);
      }
    }
  }

  /** Whether monitoring a client shows its own endpoint `id`. */
  predicate Shown(client: string, id: nat) {
    Contains(ConnectionKey(client, id), SearchName(client))
  }

  /** A client name without a dash: every endpoint is shown. */
  lemma DashFreeShown(client: string, id: nat)
    requires '-' !in client
    ensures Shown(client, id)
  {
    assert SearchName(client) == client;
    assert OccursAt(ConnectionKey(client, id), client, 0);
  }

  lemma DigitsNoDash(id: nat)
    ensures '-' !in Decimal(id)
  {
    var d := Decimal(id);
    assert forall i :: 0 <= i < |d| ==> IsDigit(d[i]);
  }

  function LastIndexOf(s: string, c: char): (i: nat)
    requires c in s
    ensures i < |s| && s[i] == c && forall j :: i < j < |s| ==> s[j] != c
  {
    if s[|s| - 1] == c then |s| - 1
    else
      assert c in s[..|s| - 1];
      LastIndexOf(s[..|s| - 1], c)
  }

  lemma SearchNameOf(p: string, q: string)
    requires '-' !in p
    ensures SearchName(p + ['-'] + q) == p + ['_'] + q
  {
    IndexOfAppend(p, '-', q);
    var c := p + ['-'] + q;
    assert c[..|p|] == p && c[|p| + 1..] == q;
  }

  lemma OccursWith(s: string, t: string, j: nat, i: nat)
    requires j + |t| <= |s| && i < |t| && s[j + i] != t[i]
    ensures !OccursAt(s, t, j)
  {
    assert s[j..j + |t|][i] == s[j + i];
  }

  /** Two dashes or more: no endpoint is ever shown. */
  lemma TwoDashesHidden(p: string, q: string, id: nat)
    requires '-' !in p && '-' in q
    ensures !Shown(p + ['-'] + q, id)
  {
    var c := p + ['-'] + q;
    var key, name := ConnectionKey(c, id), p + ['_'] + q;
    SearchNameOf(p, q);
    DigitsNoDash(id);
    var d := |p| + 1 + LastIndexOf(q, '-');
    assert forall i :: d < i < |key| ==> key[i] != '-' by {
      assert key == p + ['-'] + q + ['_'] + Decimal(id);
    }
    forall j | 0 <= j <= |key| - |name| ensures !OccursAt(key, name, j) {
      if j == 0 { OccursWith(key, name, 0, |p|); } else { OccursWith(key, name, j, d); }
    }
  }

  /** One dash: shown exactly when what follows the dash happens to contain the search
      text, as in "1-1_1". */
  lemma OneDashShown(p: string, q: string, id: nat)
    requires '-' !in p && '-' !in q
    ensures Shown(p + ['-'] + q, id) <==> Contains(q + ['_'] + Decimal(id), p + ['_'] + q)
  {
    var tail := q + ['_'] + Decimal(id);
    SearchNameOf(p, q);
    assert ConnectionKey(p + ['-'] + q, id) == p + ['-'] + tail;
    OccursPastDash(p, tail, p + ['_'] + q);
  }

  /** A text without dashes that is longer than what stands before a dash occurs only
      after it. */
  lemma OccursPastDash(p: string, tail: string, name: string)
    requires '-' !in name && |name| > |p|
    ensures Contains(p + ['-'] + tail, name) <==> Contains(tail, name)
  {
    var key, skip := p + ['-'] + tail, |p| + 1;
    if Contains(key, name) {
      var j :| 0 <= j <= |key| - |name| && OccursAt(key, name, j);
      assert key[|p|] == '-' && forall t :: 0 <= t < |name| ==> key[j..j + |name|][t] == key[j + t] && name[t] != '-';
      assert j >= skip;
      OccursShifted(key, tail, name, skip, j - skip);
    }
    if Contains(tail, name) {
      var j :| 0 <= j <= |tail| - |name| && OccursAt(tail, name, j);
      OccursShifted(key, tail, name, skip, j);
      assert OccursAt(key, name, j + skip);
    }
  }

  lemma OccursShifted(key: string, tail: string, name: string, skip: nat, j: nat)
    requires skip <= |key| && tail == key[skip..] && j + |name| <= |tail|
    ensures OccursAt(tail, name, j) <==> OccursAt(key, name, j + skip)
  {
    assert key[j + skip..j + skip + |name|] == tail[j..j + |name|];
  }

  /** In a report on a dash-free client every endpoint of the client has an entry. */
  lemma ClientReported(seen: map<string, Seen>, client: string, id: nat, r: map<nat, Monitored>)
    requires '-' !in client && IsReport(seen, SearchName(client), r)
    requires ConnectionKey(client, id) in seen && seen[ConnectionKey(client, id)].id == id
    ensures id in r
  {
    DashFreeShown(client, id);
  }

  ghost predicate IdsAgree(m: map<string, Seen>) {
    forall k :: k in m ==> EndpointIdFromKey(k).Some? && ToId(EndpointIdFromKey(k).value) == m[k].id
  }

  /** The listing keeps the ids of the names it was made from. */
  lemma {:induction false} ListedIds(conns: seq<Conn>)
    requires Listed(conns).Ok?
    ensures IdsAgree(Listed(conns).value)
  {
    if conns != [] {
      ListedIds(conns[..|conns| - 1]);
    }
  }

  lemma {:induction false} ListedKeys(conns: seq<Conn>, i: nat)
    requires Listed(conns).Ok? && i < |conns|
    ensures conns[i].key in Listed(conns).value
  {
    if i < |conns| - 1 {
      ListedKeys(conns[..|conns| - 1], i);
    }
  }

  lemma {:induction false} WithStatesIds(seen: map<string, Seen>, sas: seq<Sa>)
    requires WithStates(seen, sas).Ok?
    ensures WithStates(seen, sas).value.Keys == seen.Keys
    ensures forall k :: k in seen ==> WithStates(seen, sas).value[k].id == seen[k].id
  {
    if sas != [] {
      WithStatesIds(seen, sas[..|sas| - 1]);
    }
  }

  /** No other connection has the id in its name. */
  ghost predicate OnlyWithId(seen: map<string, Seen>, key: string, id: nat) {
    forall k :: k in seen && seen[k].id == id ==> k == key
  }

  /** From the daemon's listing to the report: an endpoint of a dash-free client that has
      a connection is reported, whatever the other clients are called, and with its own
      connection's addresses and status when no other one has its id. */
  lemma ConnectionReported(conns: seq<Conn>, sas: seq<Sa>, client: string, id: nat, i: nat, r: map<nat, Monitored>)
    requires Listed(conns).Ok? && WithStates(Listed(conns).value, sas).Ok?
    requires i < |conns| && conns[i].key == ConnectionKey(client, id) && '-' !in client && id < ID_LIMIT
    requires IsReport(WithStates(Listed(conns).value, sas).value, SearchName(client), r)
    ensures var seen, key := WithStates(Listed(conns).value, sas).value, ConnectionKey(client, id);
      && key in seen && id in r
      && (OnlyWithId(seen, key, id) ==> r[id] == Entry(seen[key]))
  {
    ListedIds(conns);
    ListedKeys(conns, i);
    WithStatesIds(Listed(conns).value, sas);
    IdRecovered(client, id);
    var seen := WithStates(Listed(conns).value, sas).value;
    ClientReported(seen, client, id, r);
    assert ReportedFrom(seen, SearchName(client), r[id], id);
  }

  /** A listing goes through exactly when every name ends in a number and every security
      association belongs to a listed connection; otherwise it is an error or a panic. */
  lemma ListingOutcome(conns: seq<Conn>, sas: seq<Sa>)
    ensures Listed(conns).Ok? <==> Numbered(conns)
    ensures !Listed(conns).Ok? ==> Listed(conns) == Err
    ensures Listed(conns).Ok? ==>
      (WithStates(Listed(conns).value, sas).Ok? <==> forall i :: 0 <= i < |sas| ==> HasConn(conns, sas[i].key))
    ensures Listed(conns).Ok? && !WithStates(Listed(conns).value, sas).Ok? ==> WithStates(Listed(conns).value, sas) == Panic
  {
    ListedOutcome(conns);
    if Listed(conns).Ok? {
      StatesOutcome(Listed(conns).value, sas);
      forall key ensures key in Listed(conns).value <==> HasConn(conns, key) { ListedNames(conns, key); }
    }
  }

  predicate HasConn(conns: seq<Conn>, key: string) {
    exists j :: 0 <= j < |conns| && conns[j].key == key
  }

  predicate Numbered(conns: seq<Conn>) {
    forall i :: 0 <= i < |conns| ==> EndpointIdFromKey(conns[i].key).Some?
  }

  lemma NumberedNext(front: seq<Conn>, last: Conn)
    ensures Numbered(front + [last]) <==> Numbered(front) && EndpointIdFromKey(last.key).Some?
  {
    var conns := front + [last];
    assert conns[|front|] == last;
    assert forall i :: 0 <= i < |front| ==> conns[i] == front[i];
  }

  lemma ListedNext(front: seq<Conn>, last: Conn)
    ensures Listed(front + [last]).Ok? <==> Listed(front).Ok? && EndpointIdFromKey(last.key).Some?
    ensures Listed(front) == Err ==> Listed(front + [last]) == Err
    ensures Listed(front).Ok? && EndpointIdFromKey(last.key).None? ==> Listed(front + [last]) == Err
    ensures Listed(front + [last]).Ok? ==>
      Listed(front + [last]).value.Keys == Listed(front).value.Keys + {last.key}
  {
    assert (front + [last])[..|front|] == front;
  }

  lemma {:induction false} ListedOutcome(conns: seq<Conn>)
    ensures Listed(conns).Ok? <==> Numbered(conns)
    ensures !Listed(conns).Ok? ==> Listed(conns) == Err
  {
    if conns != [] {
      var front, last := conns[..|conns| - 1], conns[|conns| - 1];
      assert conns == front + [last];
      ListedOutcome(front);
      NumberedNext(front, last);
      ListedNext(front, last);
    }
  }

  lemma {:induction false} ListedNames(conns: seq<Conn>, key: string)
    requires Listed(conns).Ok?
    ensures key in Listed(conns).value <==> HasConn(conns, key)
  {
    if conns != [] {
      var front, last := conns[..|conns| - 1], conns[|conns| - 1];
      assert conns == front + [last];
      ListedNext(front, last);
      ListedNames(front, key);
      HasConnNext(front, last, key);
    }
  }

  lemma HasConnNext(front: seq<Conn>, last: Conn, key: string)
    ensures HasConn(front + [last], key) <==> HasConn(front, key) || last.key == key
  {
    var conns := front + [last];
    assert conns[|front|] == last;
    if HasConn(front, key) {
      var j :| 0 <= j < |front| && front[j].key == key;
      assert conns[j].key == key;
    }
  }

  lemma {:induction false} StatesOutcome(seen: map<string, Seen>, sas: seq<Sa>)
    ensures WithStates(seen, sas).Ok? <==> forall i :: 0 <= i < |sas| ==> sas[i].key in seen
    ensures !WithStates(seen, sas).Ok? ==> WithStates(seen, sas) == Panic
  {
    if sas != [] {
      var front := sas[..|sas| - 1];
      StatesOutcome(seen, front);
      assert forall i :: 0 <= i < |front| ==> front[i] == sas[i];
      if WithStates(seen, front).Ok? { WithStatesIds(seen, front); }
    }
  }

  /** The last connection of a name is listed, and as not up yet. */
  lemma {:induction false} ListedLast(conns: seq<Conn>, i: nat)
    requires Listed(conns).Ok? && i < |conns| && forall j :: i < j < |conns| ==> conns[j].key != conns[i].key
    ensures var c, listed := conns[i], Listed(conns).value;
      && c.key in listed && listed[c.key].localAddr == c.localAddr && listed[c.key].remoteAddr == c.remoteAddr
      && listed[c.key].status == "DOWN"
  {
    if i < |conns| - 1 { ListedLast(conns[..|conns| - 1], i); }
  }

  /** The state of the last association of this name; none if there is no association. */
  function LastState(sas: seq<Sa>, key: string): (r: Option<string>)
    ensures r.None? <==> forall j :: 0 <= j < |sas| ==> sas[j].key != key
    ensures r.Some? ==> exists l :: 0 <= l < |sas| && IsLast(sas, key, l) && sas[l].state == r.value
  {
    if sas == [] then None
    else if sas[|sas| - 1].key == key then
      assert IsLast(sas, key, |sas| - 1);
      Some(sas[|sas| - 1].state)
    else
      var front := sas[..|sas| - 1];
      var r := LastState(front, key);
      assert forall j :: 0 <= j < |front| ==> front[j] == sas[j];
      assert forall l :: 0 <= l < |front| && IsLast(front, key, l) ==> IsLast(sas, key, l);
      r
  }

  predicate IsLast(sas: seq<Sa>, key: string, l: nat)
    requires l < |sas|
  {
    sas[l].key == key && forall j :: l < j < |sas| ==> sas[j].key != key
  }

  lemma {:induction false} StateSeen(seen: map<string, Seen>, sas: seq<Sa>, key: string)
    requires WithStates(seen, sas).Ok? && key in seen
    ensures key in WithStates(seen, sas).value
    ensures WithStates(seen, sas).value[key] == match LastState(sas, key)
      case None => seen[key]
      case Some(state) => seen[key].(status := state)
  {
    if sas != [] { StateSeen(seen, sas[..|sas| - 1], key); }
  }

  /** No other connection's name ends in this id. */
  ghost predicate AloneWithId(conns: seq<Conn>, i: nat, id: nat) {
    forall j :: 0 <= j < |conns| && j != i && EndpointIdFromKey(conns[j].key).Some? ==>
      EndpointIdFromKey(conns[j].key).value % 0x1_0000_0000 != id
  }

  /** What the report says about an endpoint, told from the daemon's two lists: its
      connection's peer address, its local address or the address that stands for any in
      the peer's family, and "up" exactly when the last association of that connection is
      in one of two states. */
  lemma ReportSays(conns: seq<Conn>, sas: seq<Sa>, client: string, id: nat, i: nat, r: map<nat, Monitored>)
    requires Listed(conns).Ok? && WithStates(Listed(conns).value, sas).Ok?
    requires i < |conns| && conns[i].key == client + "_" + Decimal(id) && '-' !in client && id < 0x1_0000_0000
    requires IsReport(WithStates(Listed(conns).value, sas).value, client, r) && AloneWithId(conns, i, id)
    ensures id in r && r[id].id == id && r[id].peerIp == conns[i].remoteAddr
    ensures r[id].localIp ==
      if conns[i].localAddr != "%any" then conns[i].localAddr
      else if ':' in conns[i].remoteAddr then "::" else "0.0.0.0"
    ensures r[id].status == "up" || r[id].status == "down"
    ensures r[id].status == "up" <==>
      LastState(sas, conns[i].key) in {Some("ESTABLISHED"), Some("crypto-sa-status-active")}
  {
    var listed, key := Listed(conns).value, conns[i].key;
    var seen := WithStates(listed, sas).value;
    assert SearchName(client) == client;
    assert key == ConnectionKey(client, id) by { assert "_" == ['_']; }
    IdRecovered(client, id);
    OthersHaveOtherKeys(conns, client, id, i);
    ListedLast(conns, i);
    StateSeen(listed, sas, key);
    OnlyOne(conns, sas, id, i);
    ConnectionReported(conns, sas, client, id, i, r);
    assert "DOWN"[0] == 'D' && "ESTABLISHED"[0] == 'E' && "crypto-sa-status-active"[0] == 'c';
  }

  lemma OthersHaveOtherKeys(conns: seq<Conn>, client: string, id: nat, i: nat)
    requires i < |conns| && conns[i].key == ConnectionKey(client, id) && id < ID_LIMIT && AloneWithId(conns, i, id)
    ensures forall j :: 0 <= j < |conns| && j != i ==> conns[j].key != conns[i].key
  {
    IdRecovered(client, id);
  }

  lemma OnlyOne(conns: seq<Conn>, sas: seq<Sa>, id: nat, i: nat)
    requires Listed(conns).Ok? && WithStates(Listed(conns).value, sas).Ok? && i < |conns| && AloneWithId(conns, i, id)
    ensures OnlyWithId(WithStates(Listed(conns).value, sas).value, conns[i].key, id)
  {
    var listed := Listed(conns).value;
    ListedIds(conns);
    WithStatesIds(listed, sas);
    forall k | k in listed && listed[k].id == id ensures k == conns[i].key {
      ListedNames(conns, k);
      var j :| 0 <= j < |conns| && conns[j].key == k;
    }
  }
}
