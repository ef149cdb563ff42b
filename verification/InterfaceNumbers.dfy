/** When the primary interface, the alphabetically least, is the lowest-numbered one that
    selectPrimaryInterface means to choose (src/kubelet/metric/network.go). */
module InterfaceNumbers {
  import opened RawData
  import opened Text
  import opened Network

  // ---- decimal numbers ---------------------------------------------------

  function Digit(d: nat): char
    requires d < 10
  {
    (('0' as int) + d) as char
  }

  /** The decimal digits of a number, without leading zeros. */
  function Digits(n: nat): string {
    if n < 10 then [Digit(n)] else Digits(n / 10) + [Digit(n % 10)]
  }

  /** A number cut to its first k digits. */
  function Cut(n: nat, k: nat): nat {
    if n < 10 || |Digits(n)| <= k then n else Cut(n / 10, k)
  }

  lemma {:induction false} LongerIsLarger(a: nat, b: nat)
    requires a <= b
    ensures |Digits(a)| <= |Digits(b)|
  {
    if a >= 10 {
      LongerIsLarger(a / 10, b / 10);
    }
  }

  /** The first digits of a number are the digits of the cut number. */
  lemma {:induction false} CutDigits(n: nat, k: nat)
    requires 1 <= k <= |Digits(n)|
    ensures Digits(Cut(n, k)) == Digits(n)[..k]
  {
    if |Digits(n)| == k {
      assert Digits(n)[..k] == Digits(n);
    } else {
      CutDigits(n / 10, k);
      assert Digits(n)[..|Digits(n)| - 1] == Digits(n / 10);
      assert Digits(n)[..k] == Digits(n / 10)[..k];
    }
  }

  // ---- alphabetical order ------------------------------------------------

  lemma {:induction false} LexCommonPrefix(p: string, a: string, b: string)
    ensures LexLe(p + a, p + b) <==> LexLe(a, b)
  {
    if p == "" {
      assert p + a == a && p + b == b;
    } else {
      assert (p + a)[1..] == p[1..] + a && (p + b)[1..] == p[1..] + b;
      LexCommonPrefix(p[1..], a, b);
    }
  }

  /** Against a longer string only its beginning counts. */
  lemma {:induction false} LexBeginning(a: string, b: string)
    requires |a| <= |b|
    ensures LexLe(a, b) <==> LexLe(a, b[..|a|])
  {
    if a != "" {
      LexBeginning(a[1..], b[1..]);
      assert b[..|a|][1..] == b[1..][..|a| - 1];
    }
  }

  /** The last characters decide only if everything before is equal. */
  lemma {:induction false} LexLast(a: string, x: char, b: string, y: char)
    requires |a| == |b|
    ensures LexLe(a + [x], b + [y]) <==> if a == b then x <= y else LexLe(a, b)
  {
    if a == "" {
      assert a + [x] == [x] && b + [y] == [y] && [x][1..] == "" && [y][1..] == "";
    } else {
      assert (a + [x])[1..] == a[1..] + [x] && (b + [y])[1..] == b[1..] + [y];
      LexLast(a[1..], x, b[1..], y);
      assert a == [a[0]] + a[1..] && b == [b[0]] + b[1..];
    }
  }

  /** Numbers of equally many digits are ordered as their digits are. */
  lemma {:induction false} LexIsNumeric(a: nat, b: nat)
    requires |Digits(a)| == |Digits(b)|
    ensures LexLe(Digits(a), Digits(b)) <==> a <= b
    ensures Digits(a) == Digits(b) ==> a == b
  {
    if a < 10 {
      assert b < 10;
      LexLast("", Digit(a), "", Digit(b));
      assert "" + [Digit(a)] == Digits(a) && "" + [Digit(b)] == Digits(b);
    } else {
      var fa, fb := Digits(a / 10), Digits(b / 10);
      assert b >= 10;
      LexIsNumeric(a / 10, b / 10);
      LexLast(fa, Digit(a % 10), fb, Digit(b % 10));
      assert Digits(a)[..|fa|] == fa && Digits(b)[..|fb|] == fb;
      assert Digits(a)[|fa|] == Digit(a % 10) && Digits(b)[|fb|] == Digit(b % 10);
    }
  }

  /** A number comes before a larger one exactly unless the larger one, cut to as many digits,
      is below it. */
  lemma LexIffCut(n: nat, m: nat)
    requires n <= m
    ensures LexLe(Digits(n), Digits(m)) <==> n <= Cut(m, |Digits(n)|)
  {
    var k := |Digits(n)|;
    LongerIsLarger(n, m);
    CutDigits(m, k);
    LexBeginning(Digits(n), Digits(m));
    LexIsNumeric(n, Cut(m, k));
  }

  // ---- the choice --------------------------------------------------------

  /** The candidates are one prefix with the given numbers. */
  ghost predicate Numbered(table: map<string, RawMetrics>, prefix: string, numbers: set<nat>) {
    Candidates(table) == set n | n in numbers :: prefix + Digits(n)
  }

  /** The lowest-numbered interface is chosen exactly when no number, cut to as many leading
      digits as the lowest one has, is below it. */
  lemma LowestNumberedIff(table: map<string, RawMetrics>, prefix: string, numbers: set<nat>, n: nat)
    requires Numbered(table, prefix, numbers)
    requires n in numbers && forall m :: m in numbers ==> n <= m
    ensures Primary(table) == Ok(prefix + Digits(n)) <==> forall m :: m in numbers ==> n <= Cut(m, |Digits(n)|)
  {
    var own := prefix + Digits(n);
    assert own in Candidates(table);
    PrimaryIsLeast(table);
    forall m | m in numbers
      ensures prefix + Digits(m) in Candidates(table)
      ensures LexLe(own, prefix + Digits(m)) <==> n <= Cut(m, |Digits(n)|)
    {
      LexCommonPrefix(prefix, Digits(n), Digits(m));
      LexIffCut(n, m);
    }
    if forall m :: m in numbers ==> n <= Cut(m, |Digits(n)|) {
      LexAntisymmetric(Primary(table).value, own);
    }
  }

  /** Interface 0 is chosen whenever there is one. */
  lemma ZeroIsChosen(table: map<string, RawMetrics>, prefix: string, numbers: set<nat>)
    requires Numbered(table, prefix, numbers) && 0 in numbers
    ensures Primary(table) == Ok(prefix + "0")
  {
    LowestNumberedIff(table, prefix, numbers, 0);
  }

  lemma EthIsCandidate(s: string)
    requires s != "" && IsDigit(s[0])
    ensures IsPhysical("eth" + s) && !IsCni("eth" + s)
  {
    var name := "eth" + s;
    assert name[..3] == "eth" && name[3] == s[0];
    PhysicalIsNotCni(name);
  }

  lemma LeastOfTwo(table: map<string, RawMetrics>, a: string, b: string)
    requires Candidates(table) == {a, b} && !LexLe(a, b)
    ensures Primary(table) == Ok(b)
  {
    PrimaryIsLeast(table);
  }

  /** Of eth2 and eth10, eth10 is chosen. */
  lemma TenBeforeTwo(table: map<string, RawMetrics>)
    requires table.Keys == {"eth" + "2", "eth" + "10"}
    ensures Primary(table) == Ok("eth" + "10")
  {
    EthIsCandidate("2");
    EthIsCandidate("10");
    assert Candidates(table) == table.Keys;
    assert !LexLe("2", "10");
    LexCommonPrefix("eth", "2", "10");
    LeastOfTwo(table, "eth" + "2", "eth" + "10");
  }
}
