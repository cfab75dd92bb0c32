/** Kotlin string comparisons used by the screens, over `seq<char>`. */
module Strings {

  /**
   * `a <= b` under Kotlin's `String.compareTo`: character by character,
   * and a proper prefix orders before the longer string.
   */
  predicate LexLe(a: string, b: string)
  {
    |a| == 0 || (|b| > 0 && (a[0] < b[0] || (a[0] == b[0] && LexLe(a[1..], b[1..]))))
  }

  lemma {:induction false} LexLeReflexive(a: string)
    ensures LexLe(a, a)
  {
    if |a| > 0 {
      LexLeReflexive(a[1..]);
    }
  }

  lemma {:induction false} LexLeTotal(a: string, b: string)
    ensures LexLe(a, b) || LexLe(b, a)
  {
    if |a| > 0 && |b| > 0 && a[0] == b[0] {
      LexLeTotal(a[1..], b[1..]);
    }
  }

  lemma {:induction false} LexLeAntisymmetric(a: string, b: string)
    requires LexLe(a, b) && LexLe(b, a)
    ensures a == b
  {
    if |a| > 0 {
      LexLeAntisymmetric(a[1..], b[1..]);
      assert a == [a[0]] + a[1..] && b == [b[0]] + b[1..];
    }
  }

  lemma {:induction false} LexLeTransitive(a: string, b: string, c: string)
    requires LexLe(a, b) && LexLe(b, c)
    ensures LexLe(a, c)
  {
    if |a| > 0 && a[0] == b[0] && b[0] == c[0] {
      LexLeTransitive(a[1..], b[1..], c[1..]);
    }
  }

  /** A string orders no later than any string it is a prefix of. */
  lemma {:induction false} LexLePrefix(a: string, b: string)
    requires StartsWith(b, a)
    ensures LexLe(a, b)
  {
    if |a| > 0 {
      assert b[1..][..|a| - 1] == a[1..];
      LexLePrefix(a[1..], b[1..]);
    }
  }

  /** Kotlin's `startsWith(prefix)` (case-sensitive). */
  predicate StartsWith(s: string, prefix: string)
    ensures StartsWith(s, prefix) <==>
            |prefix| <= |s| && forall i :: 0 <= i < |prefix| ==> s[i] == prefix[i]
  {
    |prefix| <= |s| && s[..|prefix|] == prefix
  }

  /** Case folding of one character, restricted to ASCII letters. */
  function Fold(c: char): (f: char)
    ensures 'A' <= c <= 'Z' ==> 'a' <= f <= 'z' && f as int == c as int + ('a' as int - 'A' as int)
    ensures !('A' <= c <= 'Z') ==> f == c
  {
    if 'A' <= c <= 'Z' then (c as int + ('a' as int - 'A' as int)) as char else c
  }

  /** Kotlin's `regionMatches(..., ignoreCase = true)` on two strings of equal length. */
  predicate EqualsIgnoreCase(a: string, b: string)
  {
    |a| == |b| && forall i :: 0 <= i < |a| ==> Fold(a[i]) == Fold(b[i])
  }

  /** `s` starts with `q` up to case. */
  predicate StartsWithIgnoreCase(s: string, q: string)
  {
    |q| <= |s| && EqualsIgnoreCase(s[..|q|], q)
  }

  /** Kotlin's `s.contains(q, ignoreCase = true)`: scans start positions left to right. */
  predicate ContainsIgnoreCase(s: string, q: string)
    ensures ContainsIgnoreCase(s, q) ==> |q| <= |s|
  {
    StartsWithIgnoreCase(s, q) || (|s| > 0 && ContainsIgnoreCase(s[1..], q))
  }

  /** `q` occurs in `s` at position `i`, up to case. */
  predicate MatchesAt(s: string, q: string, i: nat)
  {
    i + |q| <= |s| && EqualsIgnoreCase(s[i..i + |q|], q)
  }

  /** The scan finds `q` iff `q` occurs somewhere in `s` up to case. */
  lemma {:induction false} ContainsIgnoreCaseWindow(s: string, q: string)
    ensures ContainsIgnoreCase(s, q) <==> exists i: nat :: MatchesAt(s, q, i)
  {
    if |s| > 0 {
      ContainsIgnoreCaseWindow(s[1..], q);
      if StartsWithIgnoreCase(s, q) {
        assert MatchesAt(s, q, 0);
      }
      if ContainsIgnoreCase(s[1..], q) {
        var i: nat :| MatchesAt(s[1..], q, i);
        assert s[1..][i..i + |q|] == s[i + 1..i + 1 + |q|];
        assert MatchesAt(s, q, i + 1);
      }
      if exists i: nat :: MatchesAt(s, q, i) {
        var i: nat :| MatchesAt(s, q, i);
        if i > 0 {
          assert s[1..][i - 1..i - 1 + |q|] == s[i..i + |q|];
          assert MatchesAt(s[1..], q, i - 1);
        } else {
          assert s[i..i + |q|] == s[..|q|];
        }
      }
    } else {
      if ContainsIgnoreCase(s, q) {
        assert MatchesAt(s, q, 0);
      }
      if exists i: nat :: MatchesAt(s, q, i) {
        var i: nat :| MatchesAt(s, q, i);
        assert s[i..i + |q|] == s[..|q|];
      }
    }
  }

  /** The empty query is found in every string. */
  lemma EmptyQueryContained(s: string)
    ensures ContainsIgnoreCase(s, "")
  {
  }

  /** Matching ignores the case of both the text and the query. */
  lemma {:induction false} ContainsIgnoreCaseFolded(s: string, q: string)
    ensures ContainsIgnoreCase(s, q) <==> ContainsIgnoreCase(FoldAll(s), FoldAll(q))
  {
    var fs, fq := FoldAll(s), FoldAll(q);
    ContainsIgnoreCaseWindow(s, q);
    ContainsIgnoreCaseWindow(fs, fq);
    forall i: nat
      ensures MatchesAt(s, q, i) <==> MatchesAt(fs, fq, i)
    {
      if i + |q| <= |s| {
        forall k | 0 <= k < |q|
          ensures Fold(s[i..i + |q|][k]) == Fold(fs[i..i + |q|][k])
          ensures Fold(q[k]) == Fold(fq[k])
        {
          FoldIdempotent(s[i + k]);
          FoldIdempotent(q[k]);
        }
      }
    }
  }

  /** Folds every character of `s`. */
  function FoldAll(s: string): (r: string)
    ensures |r| == |s| && forall i :: 0 <= i < |s| ==> r[i] == Fold(s[i])
  {
    seq(|s|, i requires 0 <= i < |s| => Fold(s[i]))
  }

  lemma FoldIdempotent(c: char)
    ensures Fold(Fold(c)) == Fold(c)
  {
  }

  /** Case is ignored letter by letter: "GOA" is found in "Goa trip", while "Gob" is not found in "Goa". */
  lemma SearchIgnoresOnlyCase()
    ensures ContainsIgnoreCase("Goa trip", "GOA")
    ensures !ContainsIgnoreCase("Goa", "Gob")
  {
    assert Fold('O') == 'o' && Fold('A') == 'a' && Fold('G') == 'g' && Fold('a') == 'a' && Fold('o') == 'o';
    assert "Goa trip"[..3] == "Goa";
    assert EqualsIgnoreCase("Goa", "GOA");
    assert StartsWithIgnoreCase("Goa trip", "GOA");
    ContainsIgnoreCaseWindow("Goa", "Gob");
    assert "Goa"[0..3] == "Goa";
    assert !EqualsIgnoreCase("Goa", "Gob") by {
      assert Fold("Goa"[2]) != Fold("Gob"[2]);
    }
    assert !MatchesAt("Goa", "Gob", 0);
  }
}
