/** How far the interface names of ipsec.sh tell VRFs and endpoints apart. */
module InterfaceNames {
  import opened Text
  import opened IpsecScript

  /** `v` with n zeros written behind it. */
  function Shift(v: nat, n: nat): (r: nat)
    ensures r >= v
  {
    if n == 0 then v else 10 * Shift(v, n - 1)
  }

  lemma {:induction false} ValueAppend(a: string, b: string)
    requires AllDigits(a) && AllDigits(b)
    ensures Value(a + b) == Shift(Value(a), |b|) + Value(b)
  {
    if b == "" {
      assert a + b == a;
    } else {
      var front, c := b[..|b| - 1], b[|b| - 1];
      ValueAppend(a, front);
      ValueSnoc(a + front, c);
      ValueSnoc(front, c);
      assert a + b == a + front + [c] && b == front + [c];
    }
  }

  lemma ValueSnoc(a: string, c: char)
    requires AllDigits(a) && IsDigit(c)
    ensures Value(a + [c]) == 10 * Value(a) + DigitValue(c)
  {
    assert (a + [c])[..|a|] == a;
  }

  lemma DecimalValue(n: nat)
    ensures AllDigits(Decimal(n)) && Value(Decimal(n)) == n
  {
    ValueOfDecimal(n);
  }

  lemma DecimalSnoc(v: nat, c: char)
    requires v >= 1 && IsDigit(c)
    ensures Decimal(v) + [c] == Decimal(10 * v + DigitValue(c))
  {
    var d := DigitValue(c);
    assert (10 * v + d) / 10 == v && (10 * v + d) % 10 == d;
  }

  /** A numeral without a leading zero is the numeral of its value. */
  lemma {:induction false} DecimalAppend(v: nat, b: string)
    requires v >= 1 && AllDigits(b)
    ensures Decimal(v) + b == Decimal(Shift(v, |b|) + Value(b))
  {
    if b == "" {
      assert Decimal(v) + b == Decimal(v);
    } else {
      var front, c := b[..|b| - 1], b[|b| - 1];
      DecimalAppend(v, front);
      DecimalSnoc(Shift(v, |front|) + Value(front), c);
      assert Decimal(v) + b == Decimal(v) + front + [c];
    }
  }

  lemma TwoDigitsValue(i: nat)
    ensures var t := TwoDigits(i); AllDigits(t) && Value(t) == i && |t| >= 2
    ensures i < 100 ==> |TwoDigits(i)| == 2
    ensures i >= 100 ==> |TwoDigits(i)| >= 3
  {
    DecimalValue(i);
    if i < 10 {
      ValueAppend("0", Decimal(i));
      assert "0"[..0] == "";
    } else if i >= 100 {
      assert |Decimal(i / 10)| >= 2;
    }
  }

  lemma TwoDigitsInjective(i: nat, j: nat)
    requires TwoDigits(i) == TwoDigits(j)
    ensures i == j
  {
    TwoDigitsValue(i);
    TwoDigitsValue(j);
  }

  /** The name as the script builds it for the VRF with this id. */
  function NameOf(vrf: nat, i: nat): string { InterfaceName(Decimal(vrf), i) }

  /** The number that the digits of an interface name spell. */
  function Spelled(vrf: nat, i: nat): nat { Shift(vrf, |TwoDigits(i)|) + i }

  lemma NameSpells(vrf: nat, i: nat)
    requires vrf >= 1
    ensures NameOf(vrf, i) == "ipsec-" + Decimal(Spelled(vrf, i))
    ensures exists q :: Spelled(vrf, i) == 100 * q + i
    ensures i < 100 ==> Spelled(vrf, i) == 100 * vrf + i
    ensures i >= 100 ==> Spelled(vrf, i) >= 1000 * vrf + i
  {
    var t := TwoDigits(i);
    TwoDigitsValue(i);
    DecimalAppend(vrf, t);
    assert NameOf(vrf, i) == "ipsec-" + (Decimal(vrf) + t);
    assert Shift(vrf, |t|) == 100 * Shift(vrf, |t| - 2);
    if i >= 100 {
      assert Shift(vrf, |t| - 2) == 10 * Shift(vrf, |t| - 3);
    }
  }

  lemma NamesEqual(vrf: nat, i: nat, vrf': nat, i': nat)
    requires vrf >= 1 && vrf' >= 1
    ensures NameOf(vrf, i) == NameOf(vrf', i') <==> Spelled(vrf, i) == Spelled(vrf', i')
  {
    NameSpells(vrf, i);
    NameSpells(vrf', i');
    var a, b := Decimal(Spelled(vrf, i)), Decimal(Spelled(vrf', i'));
    if NameOf(vrf, i) == NameOf(vrf', i') {
      assert ("ipsec-" + a)[6..] == a && ("ipsec-" + b)[6..] == b;
      DecimalInjective(Spelled(vrf, i), Spelled(vrf', i'));
    }
  }

  /** Up to 99 endpoints a name belongs to one VRF and one endpoint. */
  lemma NamesInjective(vrf: nat, i: nat, vrf': nat, i': nat)
    requires vrf >= 1 && vrf' >= 1 && i < 100 && i' < 100
    requires NameOf(vrf, i) == NameOf(vrf', i')
    ensures vrf == vrf' && i == i'
  {
    NamesEqual(vrf, i, vrf', i');
    NameSpells(vrf, i);
    NameSpells(vrf', i');
  }

  predicate CollidesWith(vrf: nat, i: nat, vrf': nat, i': nat) {
    vrf' != vrf && NameOf(vrf, i) == NameOf(vrf', i')
  }

  /** The name of endpoint i is also the name of one of the first 99 endpoints of some
      other VRF exactly when i is beyond 99 and no multiple of 100. */
  lemma NamesCollide(vrf: nat, i: nat)
    requires vrf >= 1 && i >= 1
    ensures (exists vrf', i' :: vrf' >= 1 && 1 <= i' < 100 && CollidesWith(vrf, i, vrf', i')) <==> i >= 100 && i % 100 != 0
  {
    if i >= 100 && i % 100 != 0 {
      var vrf' := CollisionExists(vrf, i);
    }
    forall vrf', i' | vrf' >= 1 && 1 <= i' < 100 && CollidesWith(vrf, i, vrf', i')
      ensures i >= 100 && i % 100 != 0
    {
      CollisionNeeds(vrf, i, vrf', i');
    }
  }

  lemma CollisionExists(vrf: nat, i: nat) returns (vrf': nat)
    requires vrf >= 1 && i >= 100 && i % 100 != 0
    ensures vrf' >= 1 && CollidesWith(vrf, i, vrf', i % 100)
  {
    NameSpells(vrf, i);
    var q :| Spelled(vrf, i) == 100 * q + i;
    vrf' := q + i / 100;
    NameSpells(vrf', i % 100);
    NamesEqual(vrf, i, vrf', i % 100);
  }

  lemma CollisionNeeds(vrf: nat, i: nat, vrf': nat, i': nat)
    requires vrf >= 1 && i >= 1 && vrf' >= 1 && 1 <= i' < 100 && CollidesWith(vrf, i, vrf', i')
    ensures i >= 100 && i % 100 != 0
  {
    NameSpells(vrf, i);
    var q :| Spelled(vrf, i) == 100 * q + i;
    NameSpells(vrf', i');
    NamesEqual(vrf, i, vrf', i');
    if i >= 100 { LastTwo(vrf', i', q, i); } else { LastTwo(vrf', i', vrf, i); }
  }

  lemma LastTwo(a: nat, r: nat, b: nat, i: nat)
    requires 100 * a + r == 100 * b + i && r < 100
    ensures i % 100 == r && (i < 100 ==> a == b)
  {
  }
}
