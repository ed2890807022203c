/** The small interpreter in config/hardware_generator.go for the `when` statements
    (section 7.21.5 of RFC 7950) of two leaves of the switch's YANG model, and the
    cipher list it is used for. */
module WhenExpr {
  import opened Text
  import opened SupervisorEnv

  /** strings.Replace of quotes by blanks, then strings.Fields. */
  function Tokens(when: string): seq<string> {
    Words(ReplaceChar(when, '\'', ' '), GO_BLANKS)
  }

  predicate ExcludedAt(encryption: string, list: seq<string>, i: nat)
    requires i < |list|
  {
    list[i] == encryption && i >= 1 && list[i - 1] == "!="
  }

  predicate Allowed(encryption: string, list: seq<string>) {
    forall i :: 0 <= i < |list| ==> !ExcludedAt(encryption, list, i)
  }

  method KeyBitsAllowed(encryption: string, list: seq<string>) returns (r: bool)
    ensures r == Allowed(encryption, list)
  {
    for index := 0 to |list|
      invariant forall i :: 0 <= i < index ==> !ExcludedAt(encryption, list, i)
    {
      if list[index] == encryption && index - 1 >= 0 && list[index - 1] == "!=" {
        assert ExcludedAt(encryption, list, index);
        return false;
      }
    }
    return true;
  }

  /** The same scan, on a text of its own. */
  method EspHmacAllowed(encryption: string, whenEspHmac: string) returns (r: bool)
    ensures r == Allowed(encryption, Tokens(whenEspHmac))
  {
    var list := Words(ReplaceChar(whenEspHmac, '\'', ' '), GO_BLANKS);
    for index := 0 to |list|
      invariant forall i :: 0 <= i < index ==> !ExcludedAt(encryption, list, i)
    {
      if list[index] == encryption && index - 1 >= 0 && list[index - 1] == "!=" {
        assert ExcludedAt(encryption, list, index);
        return false;
      }
    }
    return true;
  }

  /** A literal of the conjunctions in question: not empty, no blanks, no quotes. */
  predicate IsLiteral(x: string) {
    IsWord(x, GO_BLANKS) && '\'' !in x
  }

  predicate Literals(xs: seq<string>) {
    forall i :: 0 <= i < |xs| ==> IsLiteral(xs[i])
  }

  /** ../esp != 'x' */
  function Clause(x: string): string { "../esp" + " " + "!=" + " " + "'" + x + "'" }

  /** ../esp != 'x0' and ../esp != 'x1' and ... */
  function Conjunction(xs: seq<string>): string {
    if xs == [] then ""
    else if |xs| == 1 then Clause(xs[0])
    else Clause(xs[0]) + " and " + Conjunction(xs[1..])
  }

  /** What XPath makes of the conjunction when the leaf `esp` holds `esp`. */
  predicate Holds(xs: seq<string>, esp: string) {
    forall i :: 0 <= i < |xs| ==> esp != xs[i]
  }

  function TokenList(xs: seq<string>): seq<string> {
    if xs == [] then []
    else if |xs| == 1 then ["../esp", "!=", xs[0]]
    else ["../esp", "!=", xs[0], "and"] + TokenList(xs[1..])
  }

  lemma UnquoteClause(a: string, op: string, x: string)
    requires '\'' !in a && '\'' !in op && '\'' !in x
    ensures ReplaceChar(a + " " + op + " " + "'" + x + "'", '\'', ' ') == a + " " + op + " " + " " + x + " "
  {
    var head := a + " " + op + " ";
    assert '\'' !in head;
    ReplaceCharAbsent(head, '\'', ' ');
    ReplaceCharAbsent(x, '\'', ' ');
    QuoteToBlank();
    ReplaceCharAppend(head, "'", '\'', ' ');
    ReplaceCharAppend(head + "'", x, '\'', ' ');
    ReplaceCharAppend(head + "'" + x, "'", '\'', ' ');
  }

  lemma QuoteToBlank()
    ensures ReplaceChar("'", '\'', ' ') == " "
  {
  }

  lemma Regroup(a: string, b: string, c: string)
    ensures a + b + c == a + (b + c)
  {
  }

  function Spread(a: string, op: string, x: string, rest: string): string {
    a + [' '] + (op + [' '] + ([' '] + (x + [' '] + rest)))
  }

  lemma SpreadText(a: string, op: string, x: string, rest: string)
    ensures a + " " + op + " " + " " + x + " " + rest == Spread(a, op, x, rest)
  {
    var s: string := [' '];
    calc {
      a + s + op + s + s + x + s + rest;
      { Regroup(a + s + op + s + s + x, s, rest); Regroup(a + s + op + s + s, x, s + rest); Regroup(x, s, rest); }
      a + s + op + s + s + (x + s + rest);
      { Regroup(a + s + op + s, s, x + s + rest); Regroup(a + s + op, s, s + (x + s + rest)); }
      a + s + op + (s + (s + (x + s + rest)));
      { Regroup(a + s, op, s + (s + (x + s + rest))); Regroup(op, s, s + (x + s + rest)); }
      a + s + (op + s + (s + (x + s + rest)));
    }
  }

  lemma ThreeWords(a: string, op: string, x: string, rest: string)
    requires IsWord(a, GO_BLANKS) && IsWord(op, GO_BLANKS) && IsWord(x, GO_BLANKS)
    ensures Words(Spread(a, op, x, rest), GO_BLANKS) == [a, op, x] + Words(rest, GO_BLANKS)
  {
    var s3 := x + [' '] + rest;
    WordsConsBlank(x, ' ', rest, GO_BLANKS);
    WordsSkip(' ', s3, GO_BLANKS);
    WordsConsBlank(op, ' ', [' '] + s3, GO_BLANKS);
    WordsConsBlank(a, ' ', op + [' '] + ([' '] + s3), GO_BLANKS);
  }

  lemma FixedWords()
    ensures IsWord("../esp", GO_BLANKS) && IsWord("!=", GO_BLANKS) && IsWord("and", GO_BLANKS)
    ensures '\'' !in "../esp" && '\'' !in "!="
  {
  }

  /** One clause of the text, followed by anything already split. */
  lemma ClauseTokens(x: string, rest: string)
    requires IsLiteral(x)
    ensures Words(ReplaceChar(Clause(x) + rest, '\'', ' '), GO_BLANKS) ==
      ["../esp", "!=", x] + Words(ReplaceChar(rest, '\'', ' '), GO_BLANKS)
  {
    FixedWords();
    UnquoteClause("../esp", "!=", x);
    ReplaceCharAppend(Clause(x), rest, '\'', ' ');
    SpreadText("../esp", "!=", x, ReplaceChar(rest, '\'', ' '));
    ThreeWords("../esp", "!=", x, ReplaceChar(rest, '\'', ' '));
  }

  lemma AndText(tail: string)
    ensures " and " + tail == [' '] + ("and" + [' '] + tail)
  {
    assert " and " == [' '] + "and" + [' '];
  }

  lemma AndTokens(rest: string)
    ensures Words(ReplaceChar(" and " + rest, '\'', ' '), GO_BLANKS) ==
      ["and"] + Words(ReplaceChar(rest, '\'', ' '), GO_BLANKS)
  {
    FixedWords();
    var tail := ReplaceChar(rest, '\'', ' ');
    ReplaceCharAbsent(" and ", '\'', ' ');
    ReplaceCharAppend(" and ", rest, '\'', ' ');
    AndText(tail);
    WordsSkip(' ', "and" + [' '] + tail, GO_BLANKS);
    WordsConsBlank("and", ' ', tail, GO_BLANKS);
  }

  lemma FourWords(a: string, b: string, c: string, d: string, ws: seq<string>)
    ensures [a, b, c] + ([d] + ws) == [a, b, c, d] + ws
  {
  }

  lemma FirstClauseTokens(x: string, rest: string)
    requires IsLiteral(x)
    ensures Tokens(Clause(x) + " and " + rest) == ["../esp", "!=", x, "and"] + Tokens(rest)
  {
    ClauseTokens(x, " and " + rest);
    AndTokens(rest);
    Regroup(Clause(x), " and ", rest);
    FourWords("../esp", "!=", x, "and", Tokens(rest));
  }

  lemma LastClauseTokens(x: string)
    requires IsLiteral(x)
    ensures Tokens(Clause(x)) == ["../esp", "!=", x]
  {
    ClauseTokens(x, "");
    assert Clause(x) + "" == Clause(x);
  }

  lemma {:induction false} ConjunctionTokens(xs: seq<string>)
    requires Literals(xs)
    ensures Tokens(Conjunction(xs)) == TokenList(xs)
  {
    if |xs| >= 1 {
      var x := xs[0];
      assert IsLiteral(x);
      if |xs| == 1 {
        LastClauseTokens(x);
      } else {
        ConjunctionTokens(xs[1..]);
        FirstClauseTokens(x, Conjunction(xs[1..]));
      }
    }
  }

  /** The one reading the scan gets wrong: a literal "!=" before an "and" looks like a
      comparison of "and" with itself. */
  predicate Misread(xs: seq<string>, esp: string) {
    esp == "and" && exists i :: 0 <= i < |xs| - 1 && xs[i] == "!="
  }

  lemma {:induction false} TokensDecide(xs: seq<string>, esp: string)
    ensures Allowed(esp, TokenList(xs)) <==> Holds(xs, esp) && !Misread(xs, esp)
  {
    var list := TokenList(xs);
    if |xs| == 1 {
      assert list[2] == xs[0] && list[1] == "!=";
      assert xs[0] == esp ==> ExcludedAt(esp, list, 2);
    } else if |xs| > 1 {
      var rest := TokenList(xs[1..]);
      TokensDecide(xs[1..], esp);
      HeadDecides(xs[0], rest, esp);
      assert rest[0] == "../esp";
      assert Holds(xs, esp) <==> xs[0] != esp && Holds(xs[1..], esp) by {
        assert forall i :: 1 <= i < |xs| ==> xs[i] == xs[1..][i - 1];
      }
      assert Misread(xs, esp) <==> (esp == "and" && xs[0] == "!=") || Misread(xs[1..], esp) by {
        assert forall i :: 1 <= i < |xs| ==> xs[i] == xs[1..][i - 1];
      }
    }
  }

  lemma HeadDecides(x: string, rest: seq<string>, esp: string)
    requires rest != [] ==> rest[0] == "../esp"
    ensures Allowed(esp, ["../esp", "!=", x, "and"] + rest) <==>
      x != esp && !(esp == "and" && x == "!=") && Allowed(esp, rest)
  {
    var list := ["../esp", "!=", x, "and"] + rest;
    assert "and" != "!=" && "../esp" != "!=";
    assert ExcludedAt(esp, list, 2) <==> x == esp;
    assert ExcludedAt(esp, list, 3) <==> esp == "and" && x == "!=";
    assert !ExcludedAt(esp, list, 0) && !ExcludedAt(esp, list, 1);
    forall i | 0 <= i < |rest| ensures ExcludedAt(esp, list, i + 4) <==> ExcludedAt(esp, rest, i) {
      assert list[i + 4] == rest[i];
      if i > 0 { assert list[i + 3] == rest[i - 1]; }
    }
    if Allowed(esp, list) {
      forall i | 0 <= i < |rest| ensures !ExcludedAt(esp, rest, i) { assert !ExcludedAt(esp, list, i + 4); }
    }
    if x != esp && !(esp == "and" && x == "!=") && Allowed(esp, rest) {
      forall i | 0 <= i < |list| ensures !ExcludedAt(esp, list, i) {
        if i >= 4 { assert !ExcludedAt(esp, rest, i - 4); }
      }
    }
  }

  /** Both scans decide a conjunction as XPath does, except for the leaf value "and"
      when a literal other than the last is "!=". */
  lemma AllowedIsXPath(xs: seq<string>, esp: string)
    requires Literals(xs)
    ensures Allowed(esp, Tokens(Conjunction(xs))) <==> Holds(xs, esp) && !Misread(xs, esp)
  {
    ConjunctionTokens(xs);
    TokensDecide(xs, esp);
  }

  /** The exception is real. */
  lemma MisreadHappens()
    ensures Literals(["!=", "x"]) && Holds(["!=", "x"], "and")
    ensures !Allowed("and", Tokens(Conjunction(["!=", "x"])))
  {
    assert ["!=", "x"][0] == "!=";
    AllowedIsXPath(["!=", "x"], "and");
  }

  function CipherEntries(encryption: string, keyBits: seq<string>, list: seq<string>): seq<string> {
    if Allowed(encryption, list) then WithKeyBits(encryption, keyBits) else [encryption]
  }

  function WithKeyBits(encryption: string, keyBits: seq<string>): (r: seq<string>)
    ensures |r| == |keyBits|
    ensures forall i :: 0 <= i < |r| ==> r[i] == encryption + " " + keyBits[i]
  {
    seq(|keyBits|, i requires 0 <= i < |keyBits| => encryption + " " + keyBits[i])
  }

  function Merged(encryptions: seq<string>, keyBits: seq<string>, list: seq<string>): seq<string> {
    if encryptions == [] then []
    else Merged(encryptions[..|encryptions| - 1], keyBits, list)
         + CipherEntries(encryptions[|encryptions| - 1], keyBits, list)
  }

  method MergeEncryptions(encryptions: seq<string>, keyBits: seq<string>, whenKeyBits: string) returns (merged: seq<string>)
    ensures merged == Merged(encryptions, keyBits, Tokens(whenKeyBits))
  {
    var list := Words(ReplaceChar(whenKeyBits, '\'', ' '), GO_BLANKS);
    merged := [];
    for i := 0 to |encryptions|
      invariant merged == Merged(encryptions[..i], keyBits, list)
    {
      var encryption := encryptions[i];
      ghost var before := merged;
      var allowed := KeyBitsAllowed(encryption, list);
      if allowed {
        for j := 0 to |keyBits|
          invariant merged == before + WithKeyBits(encryption, keyBits)[..j]
        {
          merged := merged + [encryption + " " + keyBits[j]];
        }
        assert WithKeyBits(encryption, keyBits)[..|keyBits|] == WithKeyBits(encryption, keyBits);
      } else {
        merged := merged + [encryption];
      }
      assert merged == before + CipherEntries(encryption, keyBits, list);
      assert encryptions[..i + 1][..i] == encryptions[..i];
    }
    assert encryptions[..|encryptions|] == encryptions;
  }

  /** One entry per key length where a key length is allowed, one entry otherwise. */
  function EntryCount(encryptions: seq<string>, keyBits: seq<string>, list: seq<string>): nat {
    if encryptions == [] then 0
    else EntryCount(encryptions[..|encryptions| - 1], keyBits, list)
         + if Allowed(encryptions[|encryptions| - 1], list) then |keyBits| else 1
  }

  /** transformSetEsp: the cipher of a stored phase 2 encryption. */
  function TransformSetEsp(encryption: string): string { Split(encryption, ' ')[0] }

  /** transformSetKeyBit: its key length, if it has one. */
  function TransformSetKeyBit(encryption: string): Option<string> {
    var parts := Split(encryption, ' ');
    if |parts| > 1 then Some(parts[1]) else None
  }

  predicate NoBlank(names: seq<string>) {
    forall i :: 0 <= i < |names| ==> ' ' !in names[i]
  }

  /** A merged entry read back by the template functions. */
  ghost predicate ReadsBack(m: string, encryptions: seq<string>, keyBits: seq<string>, list: seq<string>) {
    && TransformSetEsp(m) in encryptions
    && if Allowed(TransformSetEsp(m), list)
       then TransformSetKeyBit(m).Some? && TransformSetKeyBit(m).value in keyBits
       else TransformSetKeyBit(m) == None
  }

  lemma EntriesReadBack(encryption: string, keyBits: seq<string>, list: seq<string>, i: nat)
    requires ' ' !in encryption && NoBlank(keyBits) && i < |CipherEntries(encryption, keyBits, list)|
    ensures ReadsBack(CipherEntries(encryption, keyBits, list)[i], [encryption], keyBits, list)
  {
    var m := CipherEntries(encryption, keyBits, list)[i];
    if Allowed(encryption, list) {
      assert m == encryption + [' '] + keyBits[i];
      SplitCons(encryption, ' ', keyBits[i]);
      assert keyBits[i] in keyBits;
    } else {
      assert Split(m, ' ') == [m];
    }
  }

  /** Merging loses nothing: the length is the sum over the ciphers, and every entry
      splits back into one of the ciphers, with a key length exactly when the `when`
      statement lets that cipher have one. */
  lemma {:induction false} MergedReadsBack(encryptions: seq<string>, keyBits: seq<string>, list: seq<string>)
    requires NoBlank(encryptions) && NoBlank(keyBits)
    ensures |Merged(encryptions, keyBits, list)| == EntryCount(encryptions, keyBits, list)
    ensures forall i :: 0 <= i < |Merged(encryptions, keyBits, list)| ==>
      ReadsBack(Merged(encryptions, keyBits, list)[i], encryptions, keyBits, list)
  {
    if encryptions != [] {
      var front, last := encryptions[..|encryptions| - 1], encryptions[|encryptions| - 1];
      MergedReadsBack(front, keyBits, list);
      var a, b := Merged(front, keyBits, list), CipherEntries(last, keyBits, list);
      forall i | 0 <= i < |a + b| ensures ReadsBack((a + b)[i], encryptions, keyBits, list) {
        if i < |a| {
          assert ReadsBack(a[i], front, keyBits, list);
        } else {
          EntriesReadBack(last, keyBits, list, i - |a|);
        }
      }
    }
  }

  /** XPath lets this cipher have key lengths, and the scan does not misread it. */
  predicate TakesKeyBits(xs: seq<string>, encryption: string) {
    (forall i :: 0 <= i < |xs| ==> xs[i] != encryption) && !Misread(xs, encryption)
  }

  /** How many entries the first ciphers have: one per key length, or one. */
  function EntriesBefore(encryptions: seq<string>, bits: nat, xs: seq<string>, i: nat): nat
    requires i <= |encryptions|
  {
    if i == 0 then 0
    else EntriesBefore(encryptions, bits, xs, i - 1) + if TakesKeyBits(xs, encryptions[i - 1]) then bits else 1
  }

  lemma {:induction false} EntriesBeforePrefix(encryptions: seq<string>, bits: nat, xs: seq<string>, n: nat, i: nat)
    requires i <= n <= |encryptions|
    ensures EntriesBefore(encryptions[..n], bits, xs, i) == EntriesBefore(encryptions, bits, xs, i)
  {
    if i > 0 { EntriesBeforePrefix(encryptions, bits, xs, n, i - 1); }
  }

  /** The merged entries of cipher i stand behind those of the ciphers before it, and are
      the cipher with each key length in turn, or the cipher alone. */
  predicate EntriesAt(merged: seq<string>, encryptions: seq<string>, keyBits: seq<string>, xs: seq<string>, i: nat)
    requires i < |encryptions|
  {
    var at, e := EntriesBefore(encryptions, |keyBits|, xs, i), encryptions[i];
    if TakesKeyBits(xs, e)
    then at + |keyBits| <= |merged| && forall j :: 0 <= j < |keyBits| ==> merged[at + j] == e + " " + keyBits[j]
    else at < |merged| && merged[at] == e
  }

  lemma EntriesStay(a: seq<string>, b: seq<string>, encryptions: seq<string>, keyBits: seq<string>, xs: seq<string>, n: nat, i: nat)
    requires i < n <= |encryptions| && EntriesAt(a, encryptions[..n], keyBits, xs, i)
    ensures EntriesAt(a + b, encryptions, keyBits, xs, i)
  {
    EntriesBeforePrefix(encryptions, |keyBits|, xs, n, i);
    assert encryptions[..n][i] == encryptions[i];
  }

  lemma EntriesAdded(a: seq<string>, encryptions: seq<string>, keyBits: seq<string>, xs: seq<string>, list: seq<string>, n: nat)
    requires n < |encryptions| && |a| == EntriesBefore(encryptions, |keyBits|, xs, n)
    requires Allowed(encryptions[n], list) <==> TakesKeyBits(xs, encryptions[n])
    ensures EntriesAt(a + CipherEntries(encryptions[n], keyBits, list), encryptions, keyBits, xs, n)
    ensures |a + CipherEntries(encryptions[n], keyBits, list)| == EntriesBefore(encryptions, |keyBits|, xs, n + 1)
  {
    var b := CipherEntries(encryptions[n], keyBits, list);
    forall j | 0 <= j < |b| ensures (a + b)[|a| + j] == b[j] {}
  }

  predicate IsMerged(merged: seq<string>, encryptions: seq<string>, keyBits: seq<string>, xs: seq<string>) {
    && |merged| == EntriesBefore(encryptions, |keyBits|, xs, |encryptions|)
    && forall i :: 0 <= i < |encryptions| ==> EntriesAt(merged, encryptions, keyBits, xs, i)
  }

  lemma OneMoreMerged(a: seq<string>, encryptions: seq<string>, keyBits: seq<string>, xs: seq<string>, list: seq<string>, n: nat)
    requires |encryptions| == n + 1 && IsMerged(a, encryptions[..n], keyBits, xs)
    requires Allowed(encryptions[n], list) <==> TakesKeyBits(xs, encryptions[n])
    ensures IsMerged(a + CipherEntries(encryptions[n], keyBits, list), encryptions, keyBits, xs)
  {
    EntriesBeforePrefix(encryptions, |keyBits|, xs, n, n);
    EntriesAdded(a, encryptions, keyBits, xs, list, n);
    forall i | 0 <= i < n ensures EntriesAt(a + CipherEntries(encryptions[n], keyBits, list), encryptions, keyBits, xs, i) {
      EntriesStay(a, CipherEntries(encryptions[n], keyBits, list), encryptions, keyBits, xs, n, i);
    }
  }

  /** For a conjunction of clauses the merged list is, in the order of the ciphers, every
      cipher that XPath lets have a key length with every key length in order, and every
      other cipher once; and nothing else. */
  lemma {:induction false} MergedExactly(encryptions: seq<string>, keyBits: seq<string>, xs: seq<string>)
    requires Literals(xs)
    ensures IsMerged(Merged(encryptions, keyBits, Tokens(Conjunction(xs))), encryptions, keyBits, xs)
  {
    if encryptions != [] {
      var n, list := |encryptions| - 1, Tokens(Conjunction(xs));
      MergedExactly(encryptions[..n], keyBits, xs);
      AllowedIsXPath(xs, encryptions[n]);
      OneMoreMerged(Merged(encryptions[..n], keyBits, list), encryptions, keyBits, xs, list, n);
    }
  }

  /** So nothing is lost: each cipher with each key length it may have, or alone. */
  lemma NothingLost(encryptions: seq<string>, keyBits: seq<string>, xs: seq<string>, e: string, b: string)
    requires Literals(xs) && e in encryptions
    ensures var merged := Merged(encryptions, keyBits, Tokens(Conjunction(xs)));
      if TakesKeyBits(xs, e) then b in keyBits ==> e + " " + b in merged else e in merged
  {
    MergedExactly(encryptions, keyBits, xs);
    var i :| 0 <= i < |encryptions| && encryptions[i] == e;
    EntryThere(Merged(encryptions, keyBits, Tokens(Conjunction(xs))), encryptions, keyBits, xs, i, b);
  }

  lemma EntryThere(merged: seq<string>, encryptions: seq<string>, keyBits: seq<string>, xs: seq<string>, i: nat, b: string)
    requires IsMerged(merged, encryptions, keyBits, xs) && i < |encryptions|
    ensures if TakesKeyBits(xs, encryptions[i]) then b in keyBits ==> encryptions[i] + " " + b in merged else encryptions[i] in merged
  {
    assert EntriesAt(merged, encryptions, keyBits, xs, i);
    if TakesKeyBits(xs, encryptions[i]) && b in keyBits {
      var j :| 0 <= j < |keyBits| && keyBits[j] == b;
      assert merged[EntriesBefore(encryptions, |keyBits|, xs, i) + j] == encryptions[i] + " " + b;
    }
  }

  /** The template functions take an entry apart into what it was made of. */
  lemma EntryTakenApart(e: string, b: string)
    requires ' ' !in e && ' ' !in b
    ensures TransformSetEsp(e + " " + b) == e && TransformSetKeyBit(e + " " + b) == Some(b)
    ensures TransformSetEsp(e) == e && TransformSetKeyBit(e) == None
  {
    assert e + " " + b == e + [' '] + b;
    SplitCons(e, ' ', b);
    assert Split(e, ' ') == [e] && Split(b, ' ') == [b];
  }
}
