/** The switch as the hardware generator sees it: named resources that refer to one
    another, changed by PATCH, which merges (section 4.6.1 of RFC 8040), and DELETE
    (section 4.7 of RFC 8040). Requests may be refused. */
module Switch {

  datatype Kind = Psk | Certs

  datatype Resource =
    | Proposal(kind: Kind)
    | Trustpoint(id: nat)
    | Policy(kind: Kind)
    | Keyring(kind: Kind)
    | Ikev2Profile(kind: Kind, id: nat)
    | TransformSet(kind: Kind)
    | IpsecProfile(kind: Kind, id: nat)
    | Ipv6Routing
    | Tunnel(id: nat)
    | Bgp(localAs: nat)

  /** Every resource with the resources it refers to. */
  type Config = map<Resource, set<Resource>>

  function Merge(c: Config, body: Config): Config {
    map r | r in c.Keys + body.Keys ::
      (if r in c then c[r] else {}) + (if r in body then body[r] else {})
  }

  datatype Request = Patch(body: Config) | Import(id: nat) | Delete(res: Resource)

  /** A pkcs12 import creates the trustpoint of that name. */
  function Apply(c: Config, q: Request): Config {
    match q
    case Patch(body) => Merge(c, body)
    case Import(id) => Merge(c, map[Trustpoint(id) := {}])
    case Delete(res) => c - {res}
  }

  function ApplyAll(c: Config, qs: seq<Request>): Config {
    if qs == [] then c else Apply(ApplyAll(c, qs[..|qs| - 1]), qs[|qs| - 1])
  }

  lemma {:induction false} ApplyAllAppend(c: Config, a: seq<Request>, b: seq<Request>)
    ensures ApplyAll(c, a + b) == ApplyAll(ApplyAll(c, a), b)
  {
    if b == [] {
      assert a + b == a;
    } else {
      assert (a + b)[..|a + b| - 1] == a + b[..|b| - 1];
      ApplyAllAppend(c, a, b[..|b| - 1]);
    }
  }

  /** No resource refers to a missing one. */
  ghost predicate Closed(c: Config) {
    forall r, y :: r in c && y in c[r] ==> y in c
  }

  datatype Reply = Accepted | LockDenied | OtherError

  /** The device with everything it has accepted, and the number of replies it gave. */
  datatype Device = Device(config: Config, clock: nat, log: seq<Request>)

  const RETRIES := 20

  /** The number of attempts that get a reply, when `left` may still be made. */
  function Attempts(replies: nat -> Reply, clock: nat, left: nat): (n: nat)
    ensures n <= left
    ensures left > 0 ==> n >= 1
    decreases left, clock
  {
    if left == 0 then 0
    else if replies(clock) == LockDenied then 1 + Attempts(replies, clock + 1, left - 1)
    else 1
  }

  function Send(replies: nat -> Reply, d: Device, q: Request): (Device, bool) {
    var n := Attempts(replies, d.clock, RETRIES);
    if replies(d.clock + n - 1) == Accepted then (Device(Apply(d.config, q), d.clock + n, d.log + [q]), true)
    else (d.(clock := d.clock + n), false)
  }

  /** The i-th answer to come. */
  function ReplyAt(replies: nat -> Reply, clock: nat, i: nat): Reply { replies(clock + i) }

  lemma {:induction false} AttemptsRetryOnLock(replies: nat -> Reply, clock: nat, left: nat)
    requires left > 0
    ensures var n := Attempts(replies, clock, left);
      && (forall i :: 0 <= i < n - 1 ==> ReplyAt(replies, clock, i) == LockDenied)
      && (n < left ==> ReplyAt(replies, clock, n - 1) != LockDenied)
    decreases left
  {
    if left > 1 && replies(clock) == LockDenied {
      AttemptsRetryOnLock(replies, clock + 1, left - 1);
      var n := Attempts(replies, clock + 1, left - 1);
      forall i | 0 <= i < n ensures ReplyAt(replies, clock, i) == LockDenied {
        if i > 0 { assert ReplyAt(replies, clock + 1, i - 1) == LockDenied; }
      }
      assert ReplyAt(replies, clock + 1, n - 1) == ReplyAt(replies, clock, n);
    }
  }

  /** These two facts say how many attempts there are. */
  lemma {:induction false} AttemptsAre(replies: nat -> Reply, clock: nat, left: nat, n: nat)
    requires 1 <= n <= left
    requires forall i :: 0 <= i < n - 1 ==> ReplyAt(replies, clock, i) == LockDenied
    requires n < left ==> ReplyAt(replies, clock, n - 1) != LockDenied
    ensures Attempts(replies, clock, left) == n
    decreases left
  {
    if n > 1 {
      var next := clock + 1;
      assert ReplyAt(replies, clock, 0) == LockDenied;
      forall i | 0 <= i < n - 2 ensures ReplyAt(replies, next, i) == LockDenied {
        assert ReplyAt(replies, clock, i + 1) == LockDenied;
      }
      assert ReplyAt(replies, next, n - 2) == ReplyAt(replies, clock, n - 1);
      AttemptsAre(replies, next, left - 1, n - 1);
    }
  }

  /** Whatever the switch answers: at most 20 attempts, all but the last one refused for
      the lock, and the request takes effect once if the last is accepted and not at all
      otherwise. It fails only on another error or on 20 refusals for the lock. */
  lemma SendOutcome(replies: nat -> Reply, d: Device, q: Request)
    ensures var (d', ok) := Send(replies, d, q);
      var n := d'.clock - d.clock;
      && 1 <= n <= 20
      && (forall i :: 0 <= i < n - 1 ==> ReplyAt(replies, d.clock, i) == LockDenied)
      && (ok <==> ReplyAt(replies, d.clock, n - 1) == Accepted)
      && (ok ==> d'.log == d.log + [q] && d'.config == Apply(d.config, q))
      && (!ok ==> d'.log == d.log && d'.config == d.config)
      && (!ok && ReplyAt(replies, d.clock, n - 1) == LockDenied ==> n == 20)
  {
    AttemptsRetryOnLock(replies, d.clock, RETRIES);
  }

  class Connection {
    const replies: nat -> Reply
    var config: Config
    var clock: nat
    var log: seq<Request>

    constructor (replies: nat -> Reply, config: Config)
      ensures this.replies == replies && View() == Device(config, 0, [])
    {
      this.replies, this.config, clock, log := replies, config, 0, [];
    }

    function View(): Device
      reads this
    {
      Device(config, clock, log)
    }

    /** tryRestconfRequest. */
    method TryRequest(q: Request) returns (ok: bool)
      modifies this
      ensures (View(), ok) == Send(replies, old(View()), q)
    {
      for i := 0 to RETRIES
        invariant clock == old(clock) + i && config == old(config) && log == old(log)
        invariant forall j :: 0 <= j < i ==> ReplyAt(replies, old(clock), j) == LockDenied
      {
        var reply := replies(clock);
        clock := clock + 1;
        assert reply == ReplyAt(replies, old(clock), i);
        if reply != LockDenied { AttemptsAre(replies, old(clock), RETRIES, i + 1); }
        if reply == Accepted {
          config, log := Apply(config, q), log + [q];
          return true;
        }
        if reply != LockDenied {
          return false;
        }
      }
      AttemptsAre(replies, old(clock), RETRIES, RETRIES);
      assert ReplyAt(replies, old(clock), RETRIES - 1) == LockDenied;
      return false;
    }
  }
}
