/** The rows of the database, as db/db.go declares them. */
module Types {
  import opened Text
  import opened Base64

  const PSK := "psk"
  const CERTS := "certs"

  datatype Auth = Auth(
    kind: string, psk: GoString, localId: string, localCert: string,
    remoteCert: string, privateKey: string, pkcs12: string)

  datatype Endpoint = Endpoint(
    id: nat, vrfId: nat, remoteIpSec: string, localIp: string, peerIp: string,
    remoteAs: nat, nat_: bool, bgp: bool, sourceInterface: string, auth: Auth)
  {
    /** Both tunnel addresses have to look like IPv6. */
    predicate IsIpv6() { ':' in localIp && ':' in peerIp }

    predicate IsPsk() { auth.kind == PSK }

    predicate IsCerts() { auth.kind == CERTS }
  }

  datatype Vlan = Vlan(vlan: nat, lanIp: string)

  /** Pointer fields are options: nil is None. The cryptographic proposals are the
      decoded JSON arrays of the columns. */
  datatype Vrf = Vrf(
    id: nat, clientName: string, vlans: seq<Vlan>, cryptoPh1: seq<string>, cryptoPh2: seq<string>,
    physicalInterface: string, active: Option<bool>, localAs: nat,
    disablePeerIps: Option<bool>, ospf: Option<bool>, endpoints: seq<Endpoint>)

  const HARDWARE_VRF_ID := 1
}
