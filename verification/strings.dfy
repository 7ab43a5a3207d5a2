/**
 Text helpers shared by the overlay model: prefixes, the ordering `std::string`
 uses for the keys of a `std::map`, and decimal rendering of counts
 (`std::to_string` in the plugin, f-strings in the template generator).
 */
module Strings {

  /** `p` is a prefix of `s` (`s.find(p) == 0` in C++, `s.startswith(p)` in Python). */
  predicate IsPrefix(p: string, s: string) {
    |p| <= |s| && s[..|p|] == p
  }

  /** Strict lexicographic order on character codes, the order of `std::string::operator<`. */
  predicate Less(a: string, b: string)
    decreases |a|
  {
    if |a| == 0 then |b| != 0
    else if |b| == 0 then false
    else if a[0] != b[0] then a[0] < b[0]
    else Less(a[1..], b[1..])
  }

  lemma {:induction false} LessIrreflexive(a: string)
    ensures !Less(a, a)
    decreases |a|
  {
    if |a| != 0 {
      LessIrreflexive(a[1..]);
    }
  }

  lemma {:induction false} LessTransitive(a: string, b: string, c: string)
    requires Less(a, b) && Less(b, c)
    ensures Less(a, c)
    decreases |a|
  {
    if |a| != 0 && |b| != 0 && |c| != 0 && a[0] == b[0] && b[0] == c[0] {
      LessTransitive(a[1..], b[1..], c[1..]);
    }
  }

  /** A shared prefix does not change how two strings compare. */
  lemma {:induction false} LessCommonPrefix(p: string, a: string, b: string)
    requires Less(a, b)
    ensures Less(p + a, p + b)
    decreases |p|
  {
    if |p| == 0 {
      assert p + a == a && p + b == b;
    } else {
      LessCommonPrefix(p[1..], a, b);
      assert (p + a)[0] == (p + b)[0];
      assert (p + a)[1..] == p[1..] + a && (p + b)[1..] == p[1..] + b;
    }
  }

  /** Each element is strictly below the next: the order in which a `std::map` visits its keys. */
  predicate Ascending(s: seq<string>) {
    forall i {:trigger s[i]} :: 0 < i < |s| ==> Less(s[i - 1], s[i])
  }

  /** `order` visits every element of `dom` exactly once, in ascending order. */
  predicate Enumerates(order: seq<string>, dom: set<string>) {
    && Ascending(order)
    && (forall k :: k in order ==> k in dom)
    && (forall k :: k in dom ==> k in order)
  }

  /** Adjacent ascent gives ascent between any two positions, hence no repeats. */
  lemma {:induction false} AscendingPairwise(s: seq<string>, i: int, j: int)
    requires Ascending(s)
    requires 0 <= i < j < |s|
    ensures Less(s[i], s[j])
    ensures s[i] != s[j]
    decreases j - i
  {
    if i + 1 < j {
      AscendingPairwise(s, i, j - 1);
      LessTransitive(s[i], s[j - 1], s[j]);
    }
    if s[i] == s[j] {
      LessIrreflexive(s[i]);
    }
  }

  predicate Distinct<T(==)>(s: seq<T>) {
    forall i, j :: 0 <= i < j < |s| ==> s[i] != s[j]
  }

  lemma AscendingIsDistinct(s: seq<string>)
    requires Ascending(s)
    ensures Distinct(s)
  {
    forall i, j | 0 <= i < j < |s|
      ensures s[i] != s[j]
    {
      AscendingPairwise(s, i, j);
    }
  }

  /** A sequence without repeats has as many distinct elements as positions. */
  lemma {:induction false} DistinctCardinality<T>(s: seq<T>)
    requires Distinct(s)
    ensures |set x | x in s| == |s|
  {
    if |s| != 0 {
      var tail := s[1..];
      assert Distinct(tail) by {
        forall i, j | 0 <= i < j < |tail|
          ensures tail[i] != tail[j]
        {
          assert tail[i] == s[i + 1] && tail[j] == s[j + 1];
        }
      }
      DistinctCardinality(tail);
      assert s[0] !in tail by {
        forall i | 0 <= i < |tail|
          ensures tail[i] != s[0]
        {
          assert tail[i] == s[i + 1];
        }
      }
      assert (set x | x in s) == {s[0]} + (set x | x in tail);
    }
  }

  // ---- decimal text ----

  function DigitChar(d: nat): (c: char)
    requires d < 10
    ensures '0' <= c <= '9'
    ensures c as int - '0' as int == d
  {
    ['0', '1', '2', '3', '4', '5', '6', '7', '8', '9'][d]
  }

  predicate IsDigits(s: string) {
    |s| != 0 && forall i :: 0 <= i < |s| ==> '0' <= s[i] <= '9'
  }

  /** Decimal rendering of a natural number without leading zeros (`std::to_string`, `str`). */
  function NatToString(n: nat): (r: string)
    ensures IsDigits(r)
    ensures r[0] == '0' ==> n == 0
    decreases n
  {
    if n < 10 then [DigitChar(n)] else NatToString(n / 10) + [DigitChar(n % 10)]
  }

  /** Decimal rendering of an integer, with a leading '-' when negative. */
  function IntToString(i: int): (r: string)
    ensures i >= 0 ==> IsDigits(r)
    ensures i < 0 ==> |r| > 1 && r[0] == '-' && IsDigits(r[1..])
  {
    if i < 0 then "-" + NatToString(-i) else NatToString(i)
  }

  /** Value of a string of decimal digits. */
  function ParseNat(s: string): nat
    requires forall i :: 0 <= i < |s| ==> '0' <= s[i] <= '9'
  {
    if |s| == 0 then 0
    else 10 * ParseNat(s[..|s| - 1]) + (s[|s| - 1] as int - '0' as int)
  }

  /** Reading back the decimal text recovers the number. */
  lemma {:induction false} ParseNatToString(n: nat)
    ensures ParseNat(NatToString(n)) == n
    decreases n
  {
    var s := NatToString(n);
    if n >= 10 {
      ParseNatToString(n / 10);
      assert s[..|s| - 1] == NatToString(n / 10);
    }
  }

  /** Decimal text is a faithful encoding: different counts never render alike. */
  lemma NatToStringInjective(m: nat, n: nat)
    requires NatToString(m) == NatToString(n)
    ensures m == n
  {
    ParseNatToString(m);
    ParseNatToString(n);
  }
}
