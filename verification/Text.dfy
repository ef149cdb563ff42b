/** Strings as the program handles them: prefix tests, underscore-joined keys and
    the byte-wise order that `sort.Strings` sorts by. */
module Text {

  predicate HasPrefix(s: string, prefix: string) {
    prefix <= s
  }

  /** strings.TrimPrefix: removes the prefix once, if it is there. */
  function TrimPrefix(s: string, prefix: string): string {
    if HasPrefix(s, prefix) then s[|prefix|..] else s
  }

  /** fmt.Sprintf("%v_%v", a, b) */
  function Joined(a: string, b: string): string {
    a + "_" + b
  }

  /** How often c occurs in s. */
  function Occurrences(c: char, s: string): nat {
    if s == "" then 0 else (if s[0] == c then 1 else 0) + Occurrences(c, s[1..])
  }

  lemma {:induction false} OccurrencesConcat(c: char, a: string, b: string)
    ensures Occurrences(c, a + b) == Occurrences(c, a) + Occurrences(c, b)
  {
    if a == "" {
      assert a + b == b;
    } else {
      OccurrencesConcat(c, a[1..], b);
      assert (a + b)[1..] == a[1..] + b;
    }
  }

  lemma {:induction false} OccurrencesZero(c: char, s: string)
    requires c !in s
    ensures Occurrences(c, s) == 0
  {
    if s != "" {
      OccurrencesZero(c, s[1..]);
    }
  }

  lemma {:induction false} OccurrencesPositive(c: char, s: string)
    ensures Occurrences(c, s) > 0 <==> c in s
  {
    if s != "" {
      OccurrencesPositive(c, s[1..]);
      assert s == [s[0]] + s[1..];
    }
  }

  /** A separator that does not occur in the left part is found where it was written. */
  lemma SplitUnique(c: char, a: string, b: string, a': string, b': string)
    requires c !in a && c !in a'
    requires a + [c] + b == a' + [c] + b'
    ensures a == a' && b == b'
  {
    var s, s' := a + [c] + b, a' + [c] + b';
    assert s[|a|] == c && s'[|a'|] == c;
    assert |a| == |a'|;
    assert a == s[..|a|] && a' == s'[..|a'|];
    assert b == s[|a| + 1..] && b' == s'[|a'| + 1..];
  }

  /** ... and so is one that does not occur in the right part. */
  lemma SplitUniqueLast(c: char, a: string, b: string, a': string, b': string)
    requires c !in b && c !in b'
    requires a + [c] + b == a' + [c] + b'
    ensures a == a' && b == b'
  {
    var s, s' := a + [c] + b, a' + [c] + b';
    assert s[|a|] == c && s'[|a'|] == c;
    assert |a| == |a'|;
    assert a == s[..|a|] && a' == s'[..|a'|];
    assert b == s[|a| + 1..] && b' == s'[|a'| + 1..];
  }

  lemma JoinedSeparators(a: string, b: string)
    ensures Occurrences('_', Joined(a, b)) == 1 + Occurrences('_', a) + Occurrences('_', b)
  {
    OccurrencesConcat('_', a, "_");
    OccurrencesConcat('_', a + "_", b);
  }

  /** Two parts can be told apart in a joined key exactly when neither has an underscore. */
  lemma JoinedUniqueIff(a: string, b: string)
    ensures (forall c, d :: Joined(c, d) == Joined(a, b) ==> c == a && d == b) <==> '_' !in a && '_' !in b
  {
    if '_' !in a && '_' !in b {
      forall c, d | Joined(c, d) == Joined(a, b) ensures c == a && d == b {
        JoinedSeparators(a, b);
        JoinedSeparators(c, d);
        OccurrencesPositive('_', a);
        OccurrencesPositive('_', b);
        OccurrencesPositive('_', c);
        SplitUnique('_', a, b, c, d);
      }
    } else if i :| 0 <= i < |a| && a[i] == '_' {
      assert a == a[..i] + "_" + a[i + 1..];
      assert Joined(a[..i], a[i + 1..] + "_" + b) == Joined(a, b) && |a[..i]| != |a|;
    } else {
      var i :| 0 <= i < |b| && b[i] == '_';
      assert b == b[..i] + "_" + b[i + 1..];
      assert Joined(a + "_" + b[..i], b[i + 1..]) == Joined(a, b) && |a + "_" + b[..i]| != |a|;
    }
  }

  /** Removing a common prefix. */
  lemma PrefixCancel(p: string, a: string, b: string)
    requires p + a == p + b
    ensures a == b
  {
    assert a == (p + a)[|p|..];
    assert b == (p + b)[|p|..];
  }

  /** Removing a common suffix. */
  lemma SuffixCancel(a: string, b: string, suffix: string)
    requires a + suffix == b + suffix
    ensures a == b
  {
    assert |a| == |b|;
    assert a == (a + suffix)[..|a|];
    assert b == (b + suffix)[..|b|];
  }

  // ---- order and sorting -------------------------------------------------

  predicate LexLe(a: string, b: string) {
    if a == "" then true
    else if b == "" then false
    else a[0] < b[0] || (a[0] == b[0] && LexLe(a[1..], b[1..]))
  }

  lemma {:induction false} LexTotal(a: string, b: string)
    ensures LexLe(a, b) || LexLe(b, a)
  {
    if a != "" && b != "" && a[0] == b[0] {
      LexTotal(a[1..], b[1..]);
    }
  }

  lemma {:induction false} LexAntisymmetric(a: string, b: string)
    requires LexLe(a, b) && LexLe(b, a)
    ensures a == b
  {
    if a != "" && b != "" {
      LexAntisymmetric(a[1..], b[1..]);
      assert a == [a[0]] + a[1..] && b == [b[0]] + b[1..];
    }
  }

  lemma {:induction false} LexTransitive(a: string, b: string, c: string)
    requires LexLe(a, b) && LexLe(b, c)
    ensures LexLe(a, c)
  {
    if a != "" && a[0] == b[0] && b[0] == c[0] {
      LexTransitive(a[1..], b[1..], c[1..]);
    }
  }

  predicate Ascending(s: seq<string>) {
    forall i, j :: 0 <= i < j < |s| ==> LexLe(s[i], s[j])
  }

  /** Inserts x into an ascending list. */
  function InsertSorted(x: string, s: seq<string>): (r: seq<string>)
    ensures multiset(r) == multiset(s) + multiset{x}
  {
    if s == [] then [x]
    else if LexLe(x, s[0]) then [x] + s
    else
      assert s == [s[0]] + s[1..];
      [s[0]] + InsertSorted(x, s[1..])
  }

  lemma {:induction false} InsertKeepsAscending(x: string, s: seq<string>)
    requires Ascending(s)
    ensures Ascending(InsertSorted(x, s))
  {
    if s == [] {
    } else if LexLe(x, s[0]) {
      forall j | 0 <= j < |s| ensures LexLe(x, s[j]) {
        if j > 0 { LexTransitive(x, s[0], s[j]); }
      }
    } else {
      var rest := InsertSorted(x, s[1..]);
      InsertKeepsAscending(x, s[1..]);
      forall j | 0 <= j < |rest| ensures LexLe(s[0], rest[j]) {
        assert rest[j] in multiset(rest);
        if rest[j] == x {
          LexTotal(x, s[0]);
        } else {
          assert rest[j] in s[1..];
        }
      }
    }
  }

  /** sort.Strings, as a function of the unsorted list. */
  function Sorted(s: seq<string>): (r: seq<string>)
    ensures multiset(r) == multiset(s)
  {
    if s == [] then []
    else
      assert s == [s[0]] + s[1..];
      InsertSorted(s[0], Sorted(s[1..]))
  }

  lemma {:induction false} SortedIsAscending(s: seq<string>)
    ensures Ascending(Sorted(s))
  {
    if s != [] {
      SortedIsAscending(s[1..]);
      InsertKeepsAscending(s[0], Sorted(s[1..]));
    }
  }

  lemma HeadIsLeast(s: seq<string>, x: string)
    requires Ascending(s) && x in s
    ensures LexLe(s[0], x)
  {
    var i :| 0 <= i < |s| && s[i] == x;
    if i == 0 {
      LexTotal(x, x);
    }
  }

  lemma TailMultiset(s: seq<string>)
    requires s != []
    ensures multiset(s[1..]) == multiset(s) - multiset{s[0]}
  {
    assert s == [s[0]] + s[1..];
  }

  lemma SameHead(s: seq<string>, t: seq<string>)
    requires Ascending(s) && Ascending(t) && multiset(s) == multiset(t) && s != []
    ensures t != [] && s[0] == t[0]
  {
    assert s[0] in multiset(s);
    assert t[0] in multiset(t);
    HeadIsLeast(s, t[0]);
    HeadIsLeast(t, s[0]);
    LexAntisymmetric(s[0], t[0]);
  }

  lemma AscendingTail(s: seq<string>)
    requires Ascending(s) && s != []
    ensures Ascending(s[1..])
  {
    assert forall i, j :: 0 <= i < j < |s| - 1 ==> s[1..][i] == s[i + 1] && s[1..][j] == s[j + 1];
  }

  /** There is only one ascending arrangement of a multiset. */
  lemma {:induction false} AscendingUnique(s: seq<string>, t: seq<string>)
    requires Ascending(s) && Ascending(t)
    requires multiset(s) == multiset(t)
    ensures s == t
  {
    if s == [] {
      assert |multiset(t)| == 0;
    } else {
      SameHead(s, t);
      TailMultiset(s);
      TailMultiset(t);
      AscendingTail(s);
      AscendingTail(t);
      AscendingUnique(s[1..], t[1..]);
      assert s == [s[0]] + s[1..] && t == [t[0]] + t[1..];
    }
  }

  /** Sorting forgets the order its input arrived in. */
  lemma SortedIgnoresOrder(s: seq<string>, t: seq<string>)
    requires multiset(s) == multiset(t)
    ensures Sorted(s) == Sorted(t)
  {
    SortedIsAscending(s);
    SortedIsAscending(t);
    AscendingUnique(Sorted(s), Sorted(t));
  }

  /** Some arrangement of a set. */
  ghost function Listed(names: set<string>): (s: seq<string>)
    ensures multiset(s) == multiset(names)
  {
    if names == {} then [] else
      var x :| x in names;
      assert names == (names - {x}) + {x};
      Listed(names - {x}) + [x]
  }

  // ---- containment -------------------------------------------------------

  /** strings.Contains */
  predicate Contains(s: string, w: string) {
    exists i :: 0 <= i <= |s| - |w| && At(s, w, i)
  }

  predicate At(s: string, w: string, i: nat)
    requires i <= |s|
  {
    w <= s[i..]
  }

  /** A word without the separator lies on one side of it. */
  lemma ContainsAcross(s: string, c: char, t: string, w: string)
    requires c !in w && w != ""
    ensures Contains(s + [c] + t, w) <==> Contains(s, w) || Contains(t, w)
  {
    var all := s + [c] + t;
    forall i | 0 <= i <= |s| < i + |w| <= |all| ensures !At(all, w, i) {
      assert all[i..][|s| - i] == c && w[|s| - i] in w;
    }
    if i :| 0 <= i <= |all| - |w| && At(all, w, i) {
      assert forall k :: 0 <= k < |w| ==> all[i..][k] == w[k];
      if i + |w| <= |s| {
        assert At(s, w, i);
      } else {
        assert all[i..] == t[i - |s| - 1..];
        assert At(t, w, i - |s| - 1);
      }
    }
    if i :| 0 <= i <= |s| - |w| && At(s, w, i) {
      assert At(all, w, i);
    }
    if i :| 0 <= i <= |t| - |w| && At(t, w, i) {
      assert all[|s| + 1 + i..] == t[i..];
      assert At(all, w, |s| + 1 + i);
    }
  }

  /** A text without the first letter of a word does not contain the word. */
  lemma ContainsFirst(s: string, w: string)
    requires w != "" && w[0] !in s
    ensures !Contains(s, w)
  {
    forall i | 0 <= i <= |s| - |w| ensures !At(s, w, i) {
      assert s[i..][0] == s[i] && s[i] in s;
    }
  }
}
