/** The part of the Linux kernel that ipsec.sh changes: links, default routes of VRFs,
    and iptables chains. Every command that fails leaves everything as it was; the
    script ignores the failure. */
module Kernel {

  datatype Link = Link(kind: string, ifId: string, master: string, up: bool, addrs: set<string>)

  const NO_MASTER := ""

  datatype Net = Net(links: map<string, Link>, routes: set<(string, string)>)

  datatype Target = Jump(chain: string) | Zone(id: string) | Masquerade

  datatype Rule = Rule(direction: string, iface: string, target: Target)

  type Table = map<string, seq<Rule>>

  /** ip link add: the name must be free and the parent, if any, must exist. */
  function AddLink(net: Net, name: string, parent: string, kind: string, ifId: string): Net {
    if name in net.links || (parent != "" && parent !in net.links) then net
    else net.(links := net.links[name := Link(kind, ifId, NO_MASTER, false, {})])
  }

  function SetMaster(net: Net, name: string, master: string): Net {
    if name !in net.links || master !in net.links then net
    else net.(links := net.links[name := net.links[name].(master := master)])
  }

  function SetUp(net: Net, name: string): Net {
    if name !in net.links then net
    else net.(links := net.links[name := net.links[name].(up := true)])
  }

  function AddAddr(net: Net, name: string, addr: string): Net {
    if name !in net.links then net
    else net.(links := net.links[name := net.links[name].(addrs := net.links[name].addrs + {addr})])
  }

  /** Deleting a link releases its slaves and takes its routes with it. */
  function DelLink(net: Net, name: string): Net {
    if name !in net.links then net
    else Net(
      map n | n in net.links && n != name ::
        if net.links[n].master == name then net.links[n].(master := NO_MASTER) else net.links[n],
      set r | r in net.routes && r.0 != name && r.1 != name)
  }

  /** ip route add of one default route with several next hops: all or nothing. */
  function AddRoute(net: Net, vrf: string, devs: seq<string>): Net {
    if devs == [] || vrf !in net.links || (exists d :: d in devs && d !in net.links) || (exists r :: r in net.routes && r.0 == vrf)
    then net
    else net.(routes := net.routes + set d | d in devs :: (vrf, d))
  }

  /** iptables -N. */
  function NewChain(t: Table, chain: string): Table {
    if chain in t then t else t[chain := []]
  }

  /** iptables -A: the chain and the target of a jump must exist. */
  function Append(t: Table, chain: string, rule: Rule): Table {
    if chain !in t || (rule.target.Jump? && rule.target.chain !in t) then t
    else t[chain := t[chain] + [rule]]
  }

  function RemoveFirst(rules: seq<Rule>, rule: Rule): seq<Rule> {
    if rules == [] then []
    else if rules[0] == rule then rules[1..]
    else [rules[0]] + RemoveFirst(rules[1..], rule)
  }

  /** iptables -D by specification: the first rule that matches. */
  function DeleteRule(t: Table, chain: string, rule: Rule): Table {
    if chain !in t then t else t[chain := RemoveFirst(t[chain], rule)]
  }

  /** iptables -F. */
  function Flush(t: Table, chain: string): Table {
    if chain !in t then t else t[chain := []]
  }

  predicate Referenced(t: Table, chain: string) {
    exists c :: c in t && exists i :: 0 <= i < |t[c]| && t[c][i].target == Jump(chain)
  }

  /** iptables -X refuses a chain that holds rules or is jumped to. */
  function DeleteChain(t: Table, chain: string): Table {
    if chain !in t || t[chain] != [] || Referenced(t, chain) then t else t - {chain}
  }

  lemma {:induction false} RemoveAppended(rules: seq<Rule>, rule: Rule)
    requires rule !in rules
    ensures RemoveFirst(rules + [rule], rule) == rules
  {
    var all := rules + [rule];
    if rules != [] {
      assert all[0] == rules[0] && all[1..] == rules[1..] + [rule];
      RemoveAppended(rules[1..], rule);
    }
  }

  lemma {:induction false} RemoveAbsent(rules: seq<Rule>, rule: Rule)
    requires rule !in rules
    ensures RemoveFirst(rules, rule) == rules
  {
    if rules != [] {
      RemoveAbsent(rules[1..], rule);
      assert rules == [rules[0]] + rules[1..];
    }
  }
}
