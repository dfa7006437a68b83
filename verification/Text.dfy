/** Strings: splitting at colons, decimal numerals, and the code-point order JSON keys are sorted by. */
module Text {
  import opened Prelude

  predicate AllIn(s: string, ok: char -> bool) {
    forall i :: 0 <= i < |s| ==> ok(s[i])
  }

  predicate StartsWith(s: string, prefix: string) {
    |prefix| <= |s| && s[..|prefix|] == prefix
  }

  // ----- Splitting -----

  function Split(s: string): (parts: seq<string>)
    ensures |parts| >= 1
    ensures forall i :: 0 <= i < |parts| ==> |parts[i]| + (if |parts| > 1 then 1 else 0) <= |s|
  {
    if s == "" then [""]
    else if s[0] == ':' then [""] + Split(s[1..])
    else var rest := Split(s[1..]); [[s[0]] + rest[0]] + rest[1..]
  }

  lemma {:induction false} SplitPart(a: string, b: string)
    requires ':' !in a
    ensures Split(a + ":" + b) == [a] + Split(b)
  {
    if a == "" {
      assert a + ":" + b == ":" + b;
    } else {
      assert (a + ":" + b)[1..] == a[1..] + ":" + b;
      SplitPart(a[1..], b);
      assert a == [a[0]] + a[1..];
      assert ([a[1..]] + Split(b))[1..] == Split(b);
    }
  }

  lemma {:induction false} SplitLast(a: string)
    requires ':' !in a
    ensures Split(a) == [a]
  {
    if a != "" {
      SplitLast(a[1..]);
      assert a == [a[0]] + a[1..];
    }
  }

  // ----- Decimal numerals -----

  predicate Digit(c: char) {
    '0' <= c <= '9'
  }

  function NatText(n: nat): string {
    if n < 10 then [('0' as int + n) as char] else NatText(n / 10) + [('0' as int + n % 10) as char]
  }

  function DigitsValue(s: string): nat
    requires AllIn(s, Digit)
  {
    if s == "" then 0
    else DigitsValue(s[..|s| - 1]) * 10 + (s[|s| - 1] as int - '0' as int)
  }

  lemma {:induction false} NatTextValue(n: nat)
    ensures AllIn(NatText(n), Digit) && |NatText(n)| >= 1
    ensures DigitsValue(NatText(n)) == n
    ensures NatText(n)[0] == '0' ==> n == 0 && |NatText(n)| == 1
  {
    if n >= 10 {
      NatTextValue(n / 10);
      var s := NatText(n);
      assert s[..|s| - 1] == NatText(n / 10);
      assert s[0] == NatText(n / 10)[0];
    } else {
      assert NatText(n)[..0] == "";
    }
  }

  // ----- The order of keys -----

  predicate Le(a: string, b: string) {
    a == "" || (b != "" && (a[0] < b[0] || (a[0] == b[0] && Le(a[1..], b[1..]))))
  }

  lemma {:induction false} LeTotal(a: string, b: string)
    ensures Le(a, b) || Le(b, a)
    ensures Le(a, b) && Le(b, a) ==> a == b
  {
    if a != "" && b != "" {
      LeTotal(a[1..], b[1..]);
      assert a == [a[0]] + a[1..] && b == [b[0]] + b[1..];
    }
  }

  lemma {:induction false} LeTransitive(a: string, b: string, c: string)
    requires Le(a, b) && Le(b, c)
    ensures Le(a, c)
  {
    if a != "" && b != "" && c != "" {
      if a[0] == b[0] == c[0] {
        LeTransitive(a[1..], b[1..], c[1..]);
      }
    }
  }

  predicate IsLeast(least: string, keys: set<string>) {
    least in keys && forall k :: k in keys ==> Le(least, k)
  }

  lemma {:induction false} LeastExists(keys: set<string>) returns (least: string)
    requires keys != {}
    ensures IsLeast(least, keys)
    decreases |keys|
  {
    var k :| k in keys;
    var rest := keys - {k};
    LeTotal(k, k);
    assert forall x :: x in keys ==> x == k || x in rest;
    if rest == {} {
      least := k;
    } else {
      var other := LeastExists(rest);
      LeTotal(k, other);
      least := if Le(k, other) then k else other;
      forall x | x in rest
        ensures Le(least, x)
      {
        LeTransitive(least, other, x);
      }
    }
  }

  lemma LeastIsUnique(keys: set<string>)
    requires keys != {}
    ensures exists k :: IsLeast(k, keys)
    ensures forall a, b :: IsLeast(a, keys) && IsLeast(b, keys) ==> a == b
  {
    var least := LeastExists(keys);
    forall a, b | IsLeast(a, keys) && IsLeast(b, keys)
      ensures a == b
    {
      LeTotal(a, b);
    }
  }

  /** The keys in ascending order, each once. */
  function SortKeys(keys: set<string>): (sorted: seq<string>)
    ensures |sorted| == |keys|
    ensures forall k :: k in sorted <==> k in keys
    decreases |keys|
  {
    if keys == {} then []
    else
      LeastIsUnique(keys);
      var least :| IsLeast(least, keys);
      [least] + SortKeys(keys - {least})
  }

  lemma {:induction false} SortedKeysDistinct(keys: set<string>)
    ensures forall i, j :: 0 <= i < j < |SortKeys(keys)| ==> SortKeys(keys)[i] != SortKeys(keys)[j]
    decreases |keys|
  {
    if keys != {} {
      LeastIsUnique(keys);
      var least :| IsLeast(least, keys);
      SortedKeysDistinct(keys - {least});
      assert SortKeys(keys) == [least] + SortKeys(keys - {least});
    }
  }

  predicate Ascending(s: seq<string>) {
    forall i, j :: 0 <= i < j < |s| ==> Le(s[i], s[j]) && s[i] != s[j]
  }

  lemma {:induction false} SortKeysAscend(keys: set<string>)
    ensures Ascending(SortKeys(keys))
    decreases |keys|
  {
    if keys != {} {
      LeastIsUnique(keys);
      var least :| IsLeast(least, keys);
      var rest := SortKeys(keys - {least});
      SortKeysAscend(keys - {least});
      assert SortKeys(keys) == [least] + rest;
      assert forall i :: 0 <= i < |rest| ==> rest[i] in rest;
    }
  }

  /** Ascending is the only order without choice: the list is determined by its elements. */
  lemma {:induction false} AscendingIsUnique(s: seq<string>, keys: set<string>)
    requires Ascending(s) && forall k :: k in s <==> k in keys
    ensures s == SortKeys(keys)
    decreases |s|
  {
    if s == [] {
      assert keys == {};
    } else {
      assert s[0] in keys;
      LeTotal(s[0], s[0]);
      assert IsLeast(s[0], keys) by {
        forall k | k in keys
          ensures Le(s[0], k)
        {
          var i :| 0 <= i < |s| && s[i] == k;
        }
      }
      LeastIsUnique(keys);
      forall k
        ensures k in s[1..] <==> k in keys - {s[0]}
      {
        assert s == [s[0]] + s[1..];
      }
      AscendingIsUnique(s[1..], keys - {s[0]});
    }
  }
}
