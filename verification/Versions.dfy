/**
 * Numeric, dotted versions of one to four parts, compared part by part, missing parts counting 0.
 */
module Versions {
  import opened Options
  import opened Decimals

  function Split(s: string, separator: char): (r: seq<string>)
    ensures r != []
  {
    if s == "" then [""]
    else
      var rest := Split(s[1..], separator);
      if s[0] == separator then [""] + rest else [[s[0]] + rest[0]] + rest[1..]
  }

  function JoinWith(parts: seq<string>, separator: char): string {
    if parts == [] then "" else if |parts| == 1 then parts[0]
      else parts[0] + [separator] + JoinWith(parts[1..], separator)
  }

  predicate Free(s: string, c: char) { forall i | 0 <= i < |s| :: s[i] != c }

  lemma {:induction false} SplitPart(part: string, rest: string, separator: char)
    requires Free(part, separator)
    ensures Split(part, separator) == [part]
    ensures Split(part + [separator] + rest, separator) == [part] + Split(rest, separator)
  {
    var s := part + [separator] + rest;
    if part == "" {
      assert s[1..] == rest;
    } else {
      SplitPart(part[1..], rest, separator);
      assert [part[0]] + part[1..] == part;
      assert s[1..] == part[1..] + [separator] + rest;
    }
  }

  /** Parts without the separator are read back from their join. */
  lemma {:induction false} SplitJoins(parts: seq<string>, separator: char)
    requires parts != [] && forall k | 0 <= k < |parts| :: Free(parts[k], separator)
    ensures Split(JoinWith(parts, separator), separator) == parts
  {
    if |parts| == 1 {
      SplitPart(parts[0], "", separator);
    } else {
      SplitJoins(parts[1..], separator);
      SplitPart(parts[0], JoinWith(parts[1..], separator), separator);
    }
  }

  /** Every character but the separators is in a part. */
  lemma {:induction false} SplitCovers(s: string, separator: char, i: nat)
    requires i < |s| && s[i] != separator
    ensures exists k, j ::
              && 0 <= k < |Split(s, separator)| && 0 <= j < |Split(s, separator)[k]|
              && Split(s, separator)[k][j] == s[i]
  {
    var rest, all := Split(s[1..], separator), Split(s, separator);
    if i == 0 {
      assert all[0][0] == s[0];
    } else {
      SplitCovers(s[1..], separator, i - 1);
      var k, j :| 0 <= k < |rest| && 0 <= j < |rest[k]| && rest[k][j] == s[1..][i - 1];
      if s[0] == separator {
        assert all[k + 1][j] == s[i];
      } else if k == 0 {
        assert all[0][j + 1] == s[i];
      } else {
        assert all[k][j] == s[i];
      }
    }
  }

  lemma {:induction false} JoinsBack(s: string, separator: char)
    ensures JoinWith(Split(s, separator), separator) == s
  {
    if s != "" {
      var rest := Split(s[1..], separator);
      JoinsBack(s[1..], separator);
      assert s == [s[0]] + s[1..];
      if s[0] == separator {
        assert ([""] + rest)[1..] == rest;
      } else {
        var first := [s[0]] + rest[0];
        assert ([first] + rest[1..])[1..] == rest[1..];
      }
    }
  }

  predicate IsPart(s: string) { 1 <= |s| <= 9 && AllDigits(s) }

  predicate IsVersion(s: string) {
    var parts := Split(s, '.');
    |parts| <= 4 && forall i | 0 <= i < |parts| :: IsPart(parts[i])
  }

  /** One to nine ASCII digits. */
  predicate IsNumber(s: string) { 1 <= |s| <= 9 && forall j | 0 <= j < |s| :: '0' <= s[j] <= '9' }

  /** A version is one to four numbers joined by dots. */
  lemma VersionIs(s: string)
    ensures IsVersion(s) <==>
              exists parts: seq<string> ::
                && 1 <= |parts| <= 4 && s == JoinWith(parts, '.')
                && forall i | 0 <= i < |parts| :: IsNumber(parts[i])
  {
    if IsVersion(s) { JoinsBack(s, '.'); }
    if parts: seq<string> :|
         && 1 <= |parts| <= 4 && s == JoinWith(parts, '.')
         && forall i | 0 <= i < |parts| :: IsNumber(parts[i])
    {
      SplitJoins(parts, '.');
    }
  }

  /** Four numbers, or none of what is no version. */
  function Parts(s: string): (r: Option<seq<nat>>)
    ensures r.Some? ==> |r.value| == 4
  {
    var parts := Split(s, '.');
    if !IsVersion(s) then None
    else Some(seq(4, i requires 0 <= i < 4 => if i < |parts| then TextNat(parts[i]) else 0))
  }

  /** The number in one of the four places; a missing part counts 0. */
  function NumberAt(s: string, k: nat): nat
    requires IsVersion(s)
  {
    if k < |Split(s, '.')| then TextNat(Split(s, '.')[k]) else 0
  }

  /** `k` is the first place where the numbers differ, and the one of `a` is the larger there. */
  predicate LargerAt(a: string, b: string, k: nat)
    requires IsVersion(a) && IsVersion(b)
  {
    NumberAt(a, k) > NumberAt(b, k) && forall j | 0 <= j < k :: NumberAt(a, j) == NumberAt(b, j)
  }

  /** In the order of the first place where they differ. */
  predicate Greater(a: seq<nat>, b: seq<nat>)
    requires |a| == |b|
    decreases |a|
  {
    a != [] && (a[0] > b[0] || (a[0] == b[0] && Greater(a[1..], b[1..])))
  }

  predicate Newer(candidate: string, current: string) {
    var a, b := Parts(candidate), Parts(current);
    a.Some? && b.Some? && Greater(a.value, b.value)
  }

  lemma {:induction false} GreaterAt(a: seq<nat>, b: seq<nat>)
    requires |a| == |b|
    ensures Greater(a, b) <==> exists k :: 0 <= k < |a| && a[k] > b[k] && a[..k] == b[..k]
    decreases |a|
  {
    if a != [] && a[0] == b[0] {
      GreaterAt(a[1..], b[1..]);
      if k :| 0 <= k < |a| && a[k] > b[k] && a[..k] == b[..k] {
        assert a[1..][k - 1] == a[k] && a[1..][..k - 1] == a[..k][1..] && b[1..][..k - 1] == b[..k][1..];
      }
      if k :| 0 <= k < |a[1..]| && a[1..][k] > b[1..][k] && a[1..][..k] == b[1..][..k] {
        assert a[..k + 1] == [a[0]] + a[1..][..k] && b[..k + 1] == [b[0]] + b[1..][..k];
        assert a[k + 1] > b[k + 1];
      }
    } else if a != [] && a[0] > b[0] {
      assert a[..0] == b[..0];
    } else if a != [] {
      forall k | 0 < k < |a| ensures a[..k] != b[..k] {
        assert a[..k][0] == a[0] && b[..k][0] == b[0];
      }
    }
  }

  /** One version is newer exactly if at the first of the four places where they differ its number is the larger. */
  lemma NewerExactly(a: string, b: string)
    ensures Newer(a, b) <==> IsVersion(a) && IsVersion(b) && exists k :: 0 <= k < 4 && LargerAt(a, b, k)
  {
    if IsVersion(a) && IsVersion(b) {
      var x, y := Parts(a).value, Parts(b).value;
      GreaterAt(x, y);
      assert forall k | 0 <= k < 4 :: x[k] == NumberAt(a, k) && y[k] == NumberAt(b, k);
      forall k | 0 <= k < 4 ensures LargerAt(a, b, k) <==> x[k] > y[k] && x[..k] == y[..k] {
        if x[..k] == y[..k] {
          assert forall j | 0 <= j < k :: x[..k][j] == x[j] && y[..k][j] == y[j];
        }
      }
    }
  }

  /** Nothing that is a version goes below another: nowhere does the other have the larger number first. */
  predicate NotBelow(a: string, b: string) {
    IsVersion(a) && IsVersion(b) ==> forall k | 0 <= k < 4 :: !LargerAt(b, a, k)
  }

  lemma NotBelowExactly(a: string, b: string)
    ensures NotBelow(a, b) <==> !Newer(b, a)
  {
    NewerExactly(b, a);
  }

  lemma {:induction false} GreaterOrder(a: seq<nat>, b: seq<nat>, c: seq<nat>)
    requires |a| == |b| == |c|
    ensures !Greater(a, a)
    ensures Greater(a, b) && Greater(b, c) ==> Greater(a, c)
    ensures Greater(a, b) || Greater(b, a) || a == b
    decreases |a|
  {
    if a != [] {
      GreaterOrder(a[1..], b[1..], c[1..]);
      assert a == [a[0]] + a[1..] && b == [b[0]] + b[1..];
    }
  }

  /** Among versions, being newer is a strict order, and only equal numbers are equally new. */
  lemma NewerIsStrictOrder(a: string, b: string, c: string)
    ensures !Newer(a, a)
    ensures Newer(a, b) && Newer(b, c) ==> Newer(a, c)
    ensures Newer(a, b) ==> !Newer(b, a)
    ensures IsVersion(a) && IsVersion(b) ==> Newer(a, b) || Newer(b, a) || Parts(a) == Parts(b)
  {
    var x, y, z := Parts(a), Parts(b), Parts(c);
    if x.Some? && y.Some? {
      GreaterOrder(x.value, y.value, x.value);
      if z.Some? { GreaterOrder(x.value, y.value, z.value); }
    }
    if x.Some? { GreaterOrder(x.value, x.value, x.value); }
  }

  lemma NotBelowItself(a: string)
    ensures NotBelow(a, a)
  {
  }

  lemma NotBelowTransitive(a: string, b: string, c: string)
    requires IsVersion(b) && NotBelow(a, b) && NotBelow(b, c)
    ensures NotBelow(a, c)
  {
    NotBelowExactly(a, b);
    NotBelowExactly(b, c);
    NotBelowExactly(a, c);
    NewerIsStrictOrder(c, a, b);
    NewerIsStrictOrder(a, b, c);
    NewerIsStrictOrder(b, c, a);
  }
}
