/** Strings as the program uses them: `sep.join`, `str.split(sep)`, and sorting by code point. */
module Text {

  predicate Free(sep: char, s: string) {
    sep !in s
  }

  predicate AllFree(sep: char, parts: seq<string>) {
    forall p :: p in parts ==> Free(sep, p)
  }

  /** `sep.join(parts)` */
  function Join(sep: char, parts: seq<string>): string {
    if parts == [] then ""
    else if |parts| == 1 then parts[0]
    else parts[0] + [sep] + Join(sep, parts[1..])
  }

  /** `s.split(sep)`: never empty, keeps empty fields. */
  function Split(sep: char, s: string): (parts: seq<string>)
    ensures parts != []
  {
    if s == "" then [""]
    else
      var rest := Split(sep, s[1..]);
      if s[0] == sep then [""] + rest else [[s[0]] + rest[0]] + rest[1..]
  }

  lemma {:induction false} SplitFree(sep: char, s: string)
    requires Free(sep, s)
    ensures Split(sep, s) == [s]
  {
    if s != "" {
      SplitFree(sep, s[1..]);
      assert s == [s[0]] + s[1..];
    }
  }

  lemma {:induction false} SplitAtSeparator(sep: char, s: string, rest: string)
    requires Free(sep, s)
    ensures Split(sep, s + [sep] + rest) == [s] + Split(sep, rest)
  {
    var all := s + [sep] + rest;
    if s == "" {
      assert all[1..] == rest;
    } else {
      assert all[1..] == s[1..] + [sep] + rest;
      SplitAtSeparator(sep, s[1..], rest);
      assert s == [s[0]] + s[1..];
    }
  }

  /** Splitting undoes joining when no part contains the separator. */
  lemma {:induction false} SplitJoin(sep: char, parts: seq<string>)
    requires parts != [] && AllFree(sep, parts)
    ensures Split(sep, Join(sep, parts)) == parts
  {
    assert parts[0] in parts;
    if |parts| == 1 {
      SplitFree(sep, parts[0]);
    } else {
      SplitAtSeparator(sep, parts[0], Join(sep, parts[1..]));
      SplitJoin(sep, parts[1..]);
    }
  }

  /** Joining undoes splitting, whatever the string. */
  lemma {:induction false} JoinSplit(sep: char, s: string)
    ensures Join(sep, Split(sep, s)) == s
  {
    if s != "" {
      JoinSplit(sep, s[1..]);
      var rest := Split(sep, s[1..]);
      assert s == [s[0]] + s[1..];
      if s[0] == sep {
        assert ([""] + rest)[1..] == rest;
      } else {
        var parts := [[s[0]] + rest[0]] + rest[1..];
        assert parts[1..] == rest[1..];
        assert |rest| > 1 ==> Join(sep, rest) == rest[0] + [sep] + Join(sep, rest[1..]);
      }
    }
  }

  lemma SplitThree(sep: char, a: string, b: string, c: string, rest: string)
    requires Free(sep, a) && Free(sep, b) && Free(sep, c)
    ensures Split(sep, a + [sep] + (b + [sep] + (c + [sep] + rest))) == [a, b, c] + Split(sep, rest)
  {
    hide Split;
    SplitAtSeparator(sep, a, b + [sep] + (c + [sep] + rest));
    SplitAtSeparator(sep, b, c + [sep] + rest);
    SplitAtSeparator(sep, c, rest);
  }

  lemma {:induction false} SplitLeavesNoSeparator(sep: char, s: string)
    ensures AllFree(sep, Split(sep, s))
  {
    if s != "" {
      SplitLeavesNoSeparator(sep, s[1..]);
      assert Split(sep, s[1..])[0] in Split(sep, s[1..]);
    }
  }

  lemma JoinEmpty(sep: char, parts: seq<string>)
    requires "" !in parts
    ensures Join(sep, parts) == "" <==> parts == []
  {
  }

  /** Joining loses nothing on lists of non-empty separator-free parts, the empty list included. */
  lemma JoinInjective(sep: char, a: seq<string>, b: seq<string>)
    requires AllFree(sep, a) && AllFree(sep, b)
    requires "" !in a && "" !in b
    requires Join(sep, a) == Join(sep, b)
    ensures a == b
  {
    JoinEmpty(sep, a);
    JoinEmpty(sep, b);
    if a != [] && b != [] {
      SplitJoin(sep, a);
      SplitJoin(sep, b);
    }
  }

  // ---- Order of code points, and sorting ----

  predicate Leq(a: string, b: string) {
    a == "" || (b != "" && (a[0] < b[0] || (a[0] == b[0] && Leq(a[1..], b[1..]))))
  }

  /** Strings are compared by their first difference, and a prefix comes before what it begins. */
  lemma {:induction false} LeqMeans(a: string, b: string)
    ensures Leq(a, b) <==>
              a <= b || exists i :: 0 <= i < |a| && i < |b| && a[..i] == b[..i] && a[i] < b[i]
  {
    if a != "" && b != "" {
      assert a == [a[0]] + a[1..] && b == [b[0]] + b[1..];
      if a[0] == b[0] {
        LeqMeans(a[1..], b[1..]);
        assert a <= b <==> a[1..] <= b[1..];
        if i :| 0 <= i < |a[1..]| && i < |b[1..]| && a[1..][..i] == b[1..][..i] && a[1..][i] < b[1..][i] {
          assert a[..i + 1] == [a[0]] + a[1..][..i] && b[..i + 1] == [b[0]] + b[1..][..i];
        }
        if i :| 0 <= i < |a| && i < |b| && a[..i] == b[..i] && a[i] < b[i] {
          assert a[1..][..i - 1] == a[..i][1..] && b[1..][..i - 1] == b[..i][1..];
        }
      } else if a[0] < b[0] {
        assert a[..0] == b[..0];
      } else {
        forall i | 0 <= i < |a| && i < |b| && a[i] < b[i] ensures a[..i] != b[..i] {
          assert i > 0 && a[..i][0] != b[..i][0];
        }
      }
    }
  }

  lemma {:induction false} LeqTotal(a: string, b: string)
    ensures Leq(a, b) || Leq(b, a)
  {
    if a != "" && b != "" && a[0] == b[0] {
      LeqTotal(a[1..], b[1..]);
    }
  }

  lemma {:induction false} LeqAntisymmetric(a: string, b: string)
    requires Leq(a, b) && Leq(b, a)
    ensures a == b
  {
    if a != "" && b != "" {
      LeqAntisymmetric(a[1..], b[1..]);
      assert a == [a[0]] + a[1..] && b == [b[0]] + b[1..];
    }
  }

  lemma {:induction false} LeqTransitive(a: string, b: string, c: string)
    requires Leq(a, b) && Leq(b, c)
    ensures Leq(a, c)
  {
    if a != "" && a[0] == b[0] == c[0] {
      LeqTransitive(a[1..], b[1..], c[1..]);
    }
  }

  ghost predicate Sorted(s: seq<string>) {
    forall i, j :: 0 <= i < j < |s| ==> Leq(s[i], s[j])
  }

  function Insert(x: string, s: seq<string>): seq<string> {
    if s == [] || Leq(x, s[0]) then [x] + s else [s[0]] + Insert(x, s[1..])
  }

  /** `list.sort()` */
  function Sort(s: seq<string>): seq<string> {
    if s == [] then [] else Insert(s[0], Sort(s[1..]))
  }

  lemma {:induction false} InsertSorted(x: string, s: seq<string>)
    requires Sorted(s)
    ensures Sorted(Insert(x, s)) && multiset(Insert(x, s)) == multiset(s) + multiset{x}
  {
    if s == [] {
    } else if Leq(x, s[0]) {
      forall k | 0 <= k < |s| ensures Leq(x, s[k]) {
        if k > 0 { LeqTransitive(x, s[0], s[k]); }
      }
    } else {
      LeqTotal(x, s[0]);
      InsertSorted(x, s[1..]);
      var r := Insert(x, s[1..]);
      assert s == [s[0]] + s[1..];
      forall k | 0 <= k < |r| ensures Leq(s[0], r[k]) {
        assert r[k] in multiset(r);
        assert r[k] == x || r[k] in s[1..];
      }
    }
  }

  lemma {:induction false} SortSorts(s: seq<string>)
    ensures Sorted(Sort(s)) && multiset(Sort(s)) == multiset(s)
  {
    if s != [] {
      SortSorts(s[1..]);
      InsertSorted(s[0], Sort(s[1..]));
      assert s == [s[0]] + s[1..];
    }
  }

  lemma HeadIsLeast(a: seq<string>, x: string)
    requires Sorted(a) && x in multiset(a)
    ensures a != [] && Leq(a[0], x)
  {
    var i :| 0 <= i < |a| && a[i] == x;
    LeqTotal(x, x);
  }

  lemma MultisetTail(a: seq<string>)
    requires a != []
    ensures multiset(a[1..]) == multiset(a) - multiset{a[0]}
  {
    assert a == [a[0]] + a[1..];
  }

  lemma {:induction false} SortedUnique(a: seq<string>, b: seq<string>)
    requires Sorted(a) && Sorted(b) && multiset(a) == multiset(b)
    ensures a == b
  {
    if a == [] {
      assert |multiset(b)| == 0;
    } else {
      assert a[0] in multiset(a);
      HeadIsLeast(b, a[0]);
      assert b[0] in multiset(b);
      HeadIsLeast(a, b[0]);
      LeqAntisymmetric(a[0], b[0]);
      MultisetTail(a);
      MultisetTail(b);
      SortedUnique(a[1..], b[1..]);
      assert a == [a[0]] + a[1..] && b == [b[0]] + b[1..];
    }
  }

  /** A sorted list depends on the multiset of its elements and on nothing else. */
  lemma SortCanonical(a: seq<string>, b: seq<string>)
    ensures Sort(a) == Sort(b) <==> multiset(a) == multiset(b)
  {
    SortSorts(a);
    SortSorts(b);
    if multiset(a) == multiset(b) {
      SortedUnique(Sort(a), Sort(b));
    }
  }

  lemma {:induction false} JoinSnoc(sep: char, parts: seq<string>, last: string)
    requires parts != []
    ensures Join(sep, parts + [last]) == Join(sep, parts) + [sep] + last
  {
    var all := parts + [last];
    if |parts| == 1 {
      assert all[1..] == [last];
    } else {
      assert all[1..] == parts[1..] + [last];
      JoinSnoc(sep, parts[1..], last);
    }
  }

  // ---- White space ----

  predicate IsSpace(c: char) {
    c == ' ' || c == '\t' || c == '\n' || c == '\r'
  }

  /** `s.strip()` */
  function Strip(s: string): string
    decreases |s|
  {
    if s == "" then ""
    else if IsSpace(s[0]) then Strip(s[1..])
    else if IsSpace(s[|s| - 1]) then Strip(s[..|s| - 1])
    else s
  }

  predicate Blank(s: string) {
    forall c :: c in s ==> c == ' ' || c == '\t' || c == '\n' || c == '\r'
  }

  lemma BlankBoth(a: string, b: string)
    ensures Blank(a + b) <==> Blank(a) && Blank(b)
  {
    forall c ensures c in a + b <==> c in a || c in b {
    }
  }

  lemma BlankOne(c: char)
    ensures Blank([c]) <==> IsSpace(c)
  {
    assert c in [c];
  }

  lemma FourPieces(a: string, b: string, c: string, d: string)
    ensures a + (b + c + d) == (a + b) + c + d && (a + b + c) + d == a + b + (c + d)
  {
  }

  /** Stripping takes white space off both ends and nothing else. */
  lemma {:induction false} StripMeans(s: string) returns (before: string, after: string)
    ensures s == before + Strip(s) + after && Blank(before) && Blank(after)
    ensures var t := Strip(s); t != "" ==> !Blank([t[0]]) && !Blank([t[|t| - 1]])
    decreases |s|
  {
    before, after := "", "";
    hide Blank;
    if s == "" {
      assert Blank("") by { BlankIsNothing(); }
    } else if IsSpace(s[0]) {
      var b;
      b, after := StripMeans(s[1..]);
      before := [s[0]] + b;
      assert s == [s[0]] + s[1..];
      FourPieces([s[0]], b, Strip(s), after);
      BlankOne(s[0]);
      BlankBoth([s[0]], b);
    } else if IsSpace(s[|s| - 1]) {
      var a, last := "", [s[|s| - 1]];
      before, a := StripMeans(s[..|s| - 1]);
      after := a + last;
      assert s == s[..|s| - 1] + last;
      FourPieces(before, Strip(s), a, last);
      BlankOne(s[|s| - 1]);
      BlankBoth(a, last);
    } else {
      BlankIsNothing();
      BlankOne(s[0]);
      BlankOne(s[|s| - 1]);
    }
  }

  /** Stripping leaves a string alone iff no white space stands at its ends. */
  lemma {:induction false} StripShortens(s: string)
    ensures |Strip(s)| <= |s|
    ensures Strip(s) == s <==> s == "" || (!IsSpace(s[0]) && !IsSpace(s[|s| - 1]))
    decreases |s|
  {
    if s != "" && IsSpace(s[0]) {
      StripShortens(s[1..]);
    } else if s != "" && IsSpace(s[|s| - 1]) {
      StripShortens(s[..|s| - 1]);
    }
  }

  lemma BlankIsNothing()
    ensures Blank("")
  {
  }

  function LowerChar(c: char): char {
    if 'A' <= c <= 'Z' then c - 'A' + 'a' else c
  }

  /** `s.lower()` on ASCII letters. */
  function Lower(s: string): string {
    seq(|s|, i requires 0 <= i < |s| => LowerChar(s[i]))
  }

  /** Lowering turns A to Z into a to z and leaves every other character alone. */
  lemma LowerMeans(s: string)
    ensures |Lower(s)| == |s|
    ensures forall i :: 0 <= i < |s| ==>
              if 'A' <= s[i] <= 'Z' then Lower(s)[i] as int == s[i] as int + 32 else Lower(s)[i] == s[i]
  {
  }

  // ---- Decimal numerals ----

  function Digit(d: nat): char
    requires d < 10
  {
    "0123456789"[d]
  }

  /** `str(n)` */
  function Decimal(n: nat): string {
    if n < 10 then [Digit(n)] else Decimal(n / 10) + [Digit(n % 10)]
  }

  /** The number a numeral stands for, read from the left. */
  function ValueOf(digits: string): int {
    if digits == "" then 0
    else 10 * ValueOf(digits[..|digits| - 1]) + (digits[|digits| - 1] as int - '0' as int)
  }

  predicate IsDigit(c: char) {
    '0' <= c <= '9'
  }

  /** `str(n)` is a numeral for n without leading zeros. */
  lemma {:induction false} DecimalMeans(n: nat)
    ensures var d := Decimal(n);
            && d != "" && ValueOf(d) == n && (forall c :: c in d ==> IsDigit(c)) && (|d| > 1 ==> d[0] != '0')
  {
    DigitMeans(n % 10);
    if n >= 10 {
      DecimalMeans(n / 10);
      var front := Decimal(n / 10);
      assert (front + [Digit(n % 10)])[..|front|] == front;
      assert |front| == 1 ==> ValueOf(front[..0]) == 0;
    } else {
      assert ValueOf(Decimal(n)[..0]) == 0;
    }
  }

  lemma DigitMeans(d: nat)
    requires d < 10
    ensures IsDigit(Digit(d)) && Digit(d) as int - '0' as int == d
  {
  }

  lemma {:induction false} DecimalFree(sep: char, n: nat)
    requires sep !in "0123456789"
    ensures Free(sep, Decimal(n)) && Decimal(n) != ""
  {
    if n >= 10 {
      DecimalFree(sep, n / 10);
    }
  }
}
