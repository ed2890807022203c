/** The string library the backend and the start script rely on: splitting on a
    separator and joining back, white-space fields, first replacement, and decimal
    numerals. Sequences are generic where Go's byte strings are used as well. */
module Text {

  datatype Option<+T> = None | Some(value: T)

  /** True when `pat` occurs in `s` (Go's strings.Contains). */
  predicate Contains(s: string, pat: string) {
    exists i :: 0 <= i <= |s| - |pat| && OccursAt(s, pat, i)
  }

  predicate OccursAt(s: string, pat: string, i: nat)
    requires i <= |s| - |pat|
  {
    s[i..i + |pat|] == pat
  }

  /** Index of the first occurrence of `x`, or the length when there is none. */
  function IndexOf<T(==)>(s: seq<T>, x: T): (i: nat)
    ensures i <= |s|
    ensures x !in s[..i]
    ensures i < |s| ==> s[i] == x
    ensures i == |s| <==> x !in s
  {
    if s == [] || s[0] == x then 0
    else
      var j := IndexOf(s[1..], x);
      assert s[..j + 1] == [s[0]] + s[1..][..j];
      j + 1
  }

  /** strings.Split with a one-character separator. */
  function Split<T(==)>(s: seq<T>, sep: T): (parts: seq<seq<T>>)
    ensures |parts| >= 1
    ensures forall p :: p in parts ==> sep !in p
    ensures |parts| == 1 <==> sep !in s
    decreases |s|
  {
    var i := IndexOf(s, sep);
    if i == |s| then [s] else [s[..i]] + Split(s[i + 1..], sep)
  }

  /** strings.Join with a separator text. */
  function Join<T>(parts: seq<seq<T>>, sep: seq<T>): seq<T> {
    if parts == [] then []
    else if |parts| == 1 then parts[0]
    else parts[0] + sep + Join(parts[1..], sep)
  }

  lemma JoinCons<T>(p: seq<T>, parts: seq<seq<T>>, sep: seq<T>)
    requires |parts| >= 1
    ensures Join([p] + parts, sep) == p + sep + Join(parts, sep)
  {
    assert ([p] + parts)[1..] == parts;
  }

  /** Joining what Split produced gives the text back, for every text. */
  lemma {:induction false} JoinOfSplit<T>(s: seq<T>, sep: T)
    ensures Join(Split(s, sep), [sep]) == s
    decreases |s|
  {
    var i := IndexOf(s, sep);
    if i < |s| {
      var rest := s[i + 1..];
      JoinOfSplit(rest, sep);
      JoinCons(s[..i], Split(rest, sep), [sep]);
      CutAt(s, i);
      assert Split(s, sep) == [s[..i]] + Split(rest, sep);
    } else {
      assert Split(s, sep) == [s];
    }
  }

  lemma CutAt<T>(s: seq<T>, i: nat)
    requires i < |s|
    ensures s[..i] + [s[i]] + s[i + 1..] == s
  {
  }

  lemma IndexOfAppend<T>(p: seq<T>, sep: T, rest: seq<T>)
    requires sep !in p
    ensures IndexOf(p + [sep] + rest, sep) == |p|
  {
    var s := p + [sep] + rest;
    var i := IndexOf(s, sep);
    assert s[|p|] == sep && s[..|p|] == p;
    assert forall k :: 0 <= k < i ==> s[..i][k] != sep;
  }

  /** Splitting a head part off a longer text. */
  lemma SplitCons<T>(p: seq<T>, sep: T, rest: seq<T>)
    requires sep !in p
    ensures Split(p + [sep] + rest, sep) == [p] + Split(rest, sep)
  {
    var s := p + [sep] + rest;
    IndexOfAppend(p, sep, rest);
    assert s[..|p|] == p && s[|p| + 1..] == rest;
  }

  function Last<T>(parts: seq<T>): T
    requires |parts| >= 1
  {
    parts[|parts| - 1]
  }

  lemma LastCons<T>(p: T, parts: seq<T>)
    requires |parts| >= 1
    ensures Last([p] + parts) == Last(parts)
  {
  }

  /** The last part of a text whose tail holds no separator. */
  lemma {:induction false} SplitLast<T>(head: seq<T>, sep: T, tail: seq<T>)
    requires sep !in tail
    ensures Last(Split(head + [sep] + tail, sep)) == tail
    decreases |head|
  {
    var i := IndexOf(head, sep);
    if i == |head| {
      SplitCons(head, sep, tail);
    } else {
      var p, rest := head[..i], head[i + 1..] + [sep] + tail;
      assert head + [sep] + tail == p + [sep] + rest by { assert head == p + [sep] + head[i + 1..]; }
      SplitLast(head[i + 1..], sep, tail);
      SplitCons(p, sep, rest);
      LastCons(p, Split(rest, sep));
    }
  }

  /** Splitting what Join produced gives the parts back, for non-empty lists of
      separator-free parts. */
  lemma {:induction false} SplitOfJoin<T>(parts: seq<seq<T>>, sep: T)
    requires |parts| >= 1
    requires forall p :: p in parts ==> sep !in p
    ensures Split(Join(parts, [sep]), sep) == parts
  {
    if |parts| == 1 {
      assert parts == [parts[0]];
    } else {
      SplitOfJoin(parts[1..], sep);
      SplitCons(parts[0], sep, Join(parts[1..], [sep]));
      assert parts == [parts[0]] + parts[1..];
    }
  }

  /** Length of the longest prefix of `s` without a blank. */
  function WordLength(s: string, blanks: set<char>): (n: nat)
    ensures n <= |s|
    ensures forall i :: 0 <= i < n ==> s[i] !in blanks
    ensures n < |s| ==> s[n] in blanks
  {
    if s == [] || s[0] in blanks then 0 else 1 + WordLength(s[1..], blanks)
  }

  /** The maximal blank-free pieces of `s`: strings.Fields, the shell's word
      splitting and awk's fields, each with its own set of blanks. */
  function Words(s: string, blanks: set<char>): (ws: seq<string>)
    ensures forall w :: w in ws ==> IsWord(w, blanks)
    decreases |s|
  {
    if s == [] then []
    else if s[0] in blanks then Words(s[1..], blanks)
    else
      var n := WordLength(s, blanks);
      [s[..n]] + Words(s[n..], blanks)
  }

  predicate IsWord(w: string, blanks: set<char>) {
    w != [] && forall i :: 0 <= i < |w| ==> w[i] !in blanks
  }

  lemma WordLengthAppend(w: string, rest: string, blanks: set<char>)
    requires IsWord(w, blanks)
    requires rest != [] ==> rest[0] in blanks
    ensures WordLength(w + rest, blanks) == |w|
  {
    var s := w + rest;
    assert forall i :: 0 <= i < |w| ==> s[i] == w[i];
    assert rest != [] ==> s[|w|] == rest[0];
  }

  /** A leading word is split off, and what follows it is split on its own. */
  lemma WordsCons(w: string, rest: string, blanks: set<char>)
    requires IsWord(w, blanks)
    requires rest != [] ==> rest[0] in blanks
    ensures Words(w + rest, blanks) == [w] + Words(rest, blanks)
  {
    WordLengthAppend(w, rest, blanks);
    var s := w + rest;
    assert s[0] == w[0];
    assert s[..|w|] == w && s[|w|..] == rest;
  }

  lemma WordsSkip(b: char, rest: string, blanks: set<char>)
    requires b in blanks
    ensures Words([b] + rest, blanks) == Words(rest, blanks)
  {
    assert ([b] + rest)[1..] == rest;
  }

  /** A word followed by a blank. */
  lemma WordsConsBlank(w: string, b: char, rest: string, blanks: set<char>)
    requires IsWord(w, blanks) && b in blanks
    ensures Words(w + [b] + rest, blanks) == [w] + Words(rest, blanks)
  {
    assert w + [b] + rest == w + ([b] + rest);
    WordsCons(w, [b] + rest, blanks);
    WordsSkip(b, rest, blanks);
  }

  /** Words of a blank-separated list of words are the list. */
  lemma {:induction false} WordsOfJoin(ws: seq<string>, b: char, blanks: set<char>)
    requires b in blanks
    requires forall w :: w in ws ==> IsWord(w, blanks)
    ensures Words(Join(ws, [b]), blanks) == ws
  {
    if ws == [] {
    } else if |ws| == 1 {
      assert IsWord(ws[0], blanks);
      WordsCons(ws[0], [], blanks);
      assert ws[0] + [] == ws[0];
      assert ws == [ws[0]];
    } else {
      assert IsWord(ws[0], blanks);
      WordsOfJoin(ws[1..], b, blanks);
      WordsConsBlank(ws[0], b, Join(ws[1..], [b]), blanks);
    }
  }

  /** strings.Replace(s, [from], [to], -1) for single characters. */
  function ReplaceChar(s: string, from: char, to: char): (r: string)
    ensures |r| == |s|
    ensures forall i :: 0 <= i < |s| ==> r[i] == if s[i] == from then to else s[i]
  {
    if s == [] then [] else [if s[0] == from then to else s[0]] + ReplaceChar(s[1..], from, to)
  }

  lemma ReplaceCharAppend(a: string, b: string, from: char, to: char)
    ensures ReplaceChar(a + b, from, to) == ReplaceChar(a, from, to) + ReplaceChar(b, from, to)
  {
  }

  lemma ReplaceCharAbsent(s: string, from: char, to: char)
    requires from !in s
    ensures ReplaceChar(s, from, to) == s
  {
  }

  /** strings.Replace(s, [from], [to], 1). */
  function ReplaceFirst(s: string, from: char, to: char): string {
    var i := IndexOf(s, from);
    if i == |s| then s else s[..i] + [to] + s[i + 1..]
  }

  predicate IsDigit(c: char) { '0' <= c <= '9' }

  function DigitChar(d: nat): (c: char)
    requires d < 10
    ensures IsDigit(c) && (c - '0') as int == d
  {
    '0' + (d as char)
  }

  function DigitValue(c: char): (d: nat)
    requires IsDigit(c)
    ensures d < 10
  {
    (c - '0') as int
  }

  /** The decimal numeral of `n`, as strconv.Itoa and "%d" print it. */
  function Decimal(n: nat): (s: string)
    ensures |s| >= 1
    ensures forall i :: 0 <= i < |s| ==> IsDigit(s[i])
  {
    if n < 10 then [DigitChar(n)] else Decimal(n / 10) + [DigitChar(n % 10)]
  }

  predicate AllDigits(s: string) {
    forall i :: 0 <= i < |s| ==> IsDigit(s[i])
  }

  /** strconv.Atoi: an optional sign and digits, within 64 bits. */
  function Atoi(s: string): (r: Option<int>)
    ensures r.Some? ==> -0x8000_0000_0000_0000 <= r.value < 0x8000_0000_0000_0000
  {
    var digits := if s != [] && s[0] in {'+', '-'} then s[1..] else s;
    if digits == [] || !AllDigits(digits) then None
    else
      var v: int := Value(digits);
      var n := if s[0] == '-' then -v else v;
      if -0x8000_0000_0000_0000 <= n < 0x8000_0000_0000_0000 then Some(n) else None
  }

  function Value(s: string): nat
    requires AllDigits(s)
  {
    if s == [] then 0 else 10 * Value(s[..|s| - 1]) + DigitValue(s[|s| - 1])
  }

  /** Reading a numeral back. */
  lemma AtoiOfDecimal(n: nat)
    requires n < 0x8000_0000_0000_0000
    ensures Atoi(Decimal(n)) == Some(n)
  {
    ValueOfDecimal(n);
    assert IsDigit(Decimal(n)[0]);
  }

  lemma {:induction false} ValueOfDecimal(n: nat)
    ensures Value(Decimal(n)) == n
  {
    var s := Decimal(n);
    if n < 10 {
      assert s[..|s| - 1] == [];
      assert Value([]) == 0;
      assert Value(s) == DigitValue(DigitChar(n));
    } else {
      ValueOfDecimal(n / 10);
      assert s[..|s| - 1] == Decimal(n / 10);
      assert s[|s| - 1] == DigitChar(n % 10);
    }
  }

  lemma DecimalInjective(m: nat, n: nat)
    requires Decimal(m) == Decimal(n)
    ensures m == n
  {
    ValueOfDecimal(m);
    ValueOfDecimal(n);
  }

  const LOWER := "abcdefghijklmnopqrstuvwxyz"
  const UPPER := "ABCDEFGHIJKLMNOPQRSTUVWXYZ"
  const DIGITS := "0123456789"

  lemma InOrder(i: nat)
    ensures |LOWER| == |UPPER| == 26 && |DIGITS| == 10
    ensures i < 26 ==> LOWER[i] == 'a' + (i as char) && UPPER[i] == 'A' + (i as char)
    ensures i < 10 ==> DIGITS[i] == '0' + (i as char)
  {
  }

  /** Numerals have no leading zeros. */
  lemma {:induction false} DecimalStart(n: nat)
    ensures Decimal(n)[0] == '0' <==> n == 0
  {
    if n >= 10 { DecimalStart(n / 10); }
  }

  /** A sign is optional, the result fits 64 bits, and nothing but digits may follow. */
  lemma AtoiOfSigned(n: nat)
    ensures Atoi("-" + Decimal(n)) == if n <= 0x8000_0000_0000_0000 then Some(-(n as int)) else None
    ensures Atoi("+" + Decimal(n)) == if n < 0x8000_0000_0000_0000 then Some(n) else None
    ensures Atoi(Decimal(n)) == Atoi("+" + Decimal(n))
  {
    ValueOfDecimal(n);
    AfterSign("-", Decimal(n));
    AfterSign("+", Decimal(n));
    assert IsDigit(Decimal(n)[0]);
  }

  lemma AfterSign(sign: string, digits: string)
    requires |sign| == 1
    ensures (sign + digits)[0] == sign[0] && (sign + digits)[1..] == digits
  {
  }

  lemma AtoiRefuses(s: string, i: nat)
    requires i < |s| && !IsDigit(s[i]) && (i == 0 ==> s[0] != '+' && s[0] != '-')
    ensures Atoi(s) == None && Atoi("") == None && Atoi("+") == None && Atoi("-") == None
  {
    var digits := if s[0] in {'+', '-'} then s[1..] else s;
    assert digits[if s[0] in {'+', '-'} then i - 1 else i] == s[i];
  }
}
