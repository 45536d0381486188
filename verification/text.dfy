/**
 Case-insensitive substring matching, the meaning the note search gives to
 `column ILIKE '%q%'` on SQLite: both sides are folded to lower case, which
 SQLite does for ASCII letters only, and the query must occur as a contiguous
 run of characters.
 */
module Text {

  /** ASCII lower-casing of one character; every other character is kept. */
  function Lower(c: char): (r: char)
  {
    if 'A' <= c <= 'Z' then (c as int + 32) as char else c
  }

  function LowerStr(s: string): (r: string)
    ensures |r| == |s|
    ensures forall i :: 0 <= i < |s| ==> r[i] == Lower(s[i])
  {
    if s == [] then [] else [Lower(s[0])] + LowerStr(s[1..])
  }

  predicate StartsWith(s: string, p: string)
  {
    |p| <= |s| && s[..|p|] == p
  }

  /** Executable search: does `p` start at some position of `s`? */
  predicate Contains(s: string, p: string)
    decreases |s|
  {
    StartsWith(s, p) || (s != [] && Contains(s[1..], p))
  }

  /** Reference definition: `p` occurs in `s` at offset `i`. */
  ghost predicate OccursAt(s: string, p: string, i: int)
  {
    0 <= i && i + |p| <= |s| && s[i..i + |p|] == p
  }

  /** The search finds `p` exactly when `p` occurs somewhere in `s`. */
  lemma {:induction false} ContainsIff(s: string, p: string)
    ensures Contains(s, p) <==> exists i :: OccursAt(s, p, i)
  {
    if StartsWith(s, p) {
      assert OccursAt(s, p, 0);
    } else if s == [] {
      assert |p| > 0;
    } else {
      ContainsIff(s[1..], p);
      forall i | 0 < i && i + |p| <= |s|
        ensures OccursAt(s, p, i) <==> OccursAt(s[1..], p, i - 1)
      {
        assert s[1..][i - 1..i - 1 + |p|] == s[i..i + |p|];
      }
      if Contains(s[1..], p) {
        var i :| OccursAt(s[1..], p, i);
        assert OccursAt(s, p, i + 1);
      } else {
        assert !OccursAt(s, p, 0);
      }
    }
  }

  /** `LowerStr` commutes with slicing. */
  lemma LowerStrSlice(s: string, i: int, j: int)
    requires 0 <= i <= j <= |s|
    ensures LowerStr(s)[i..j] == LowerStr(s[i..j])
  {
  }

  /** `text ILIKE '%q%'`: `q` occurs in `text`, ignoring ASCII case. */
  predicate MatchesIgnoringCase(text: string, q: string)
  {
    Contains(LowerStr(text), LowerStr(q))
  }

  /** Reference definition: the window of `text` at offset `i` spells `q` up to ASCII case. */
  ghost predicate MatchesAtIgnoringCase(text: string, q: string, i: int)
  {
    0 <= i && i + |q| <= |text| && LowerStr(text[i..i + |q|]) == LowerStr(q)
  }

  /** The match is a case-insensitive substring test. */
  lemma MatchesIgnoringCaseIff(text: string, q: string)
    ensures MatchesIgnoringCase(text, q) <==> exists i :: MatchesAtIgnoringCase(text, q, i)
  {
    var lt, lq := LowerStr(text), LowerStr(q);
    ContainsIff(lt, lq);
    if MatchesIgnoringCase(text, q) {
      var i :| OccursAt(lt, lq, i);
      LowerStrSlice(text, i, i + |q|);
      assert MatchesAtIgnoringCase(text, q, i);
    }
    if exists i :: MatchesAtIgnoringCase(text, q, i) {
      var i :| MatchesAtIgnoringCase(text, q, i);
      LowerStrSlice(text, i, i + |q|);
      assert OccursAt(lt, lq, i);
    }
  }

  /** The empty query matches every text (`'%%'` matches any string). */
  lemma EmptyQueryMatchesAll(text: string)
    ensures MatchesIgnoringCase(text, "")
  {
    assert LowerStr(text)[..0] == [];
  }

  /** A query that differs only in ASCII case matches the same texts. */
  lemma MatchIgnoresQueryCase(text: string, q1: string, q2: string)
    requires LowerStr(q1) == LowerStr(q2)
    ensures MatchesIgnoringCase(text, q1) == MatchesIgnoringCase(text, q2)
  {
  }

  /** Lexicographic order on strings, character by character (SQLite's
      default BINARY collation, as used by `ORDER BY name`). */
  predicate NameLe(a: string, b: string)
    decreases |a|
  {
    a == [] || (b != [] && (a[0] < b[0] || (a[0] == b[0] && NameLe(a[1..], b[1..]))))
  }

  lemma {:induction false} NameLeTotal(a: string, b: string)
    ensures NameLe(a, b) || NameLe(b, a)
    decreases |a|
  {
    if a != [] && b != [] && a[0] == b[0] {
      NameLeTotal(a[1..], b[1..]);
    }
  }

  lemma {:induction false} NameLeTransitive(a: string, b: string, c: string)
    requires NameLe(a, b) && NameLe(b, c)
    ensures NameLe(a, c)
    decreases |a|
  {
    if a != [] && a[0] == b[0] && b[0] == c[0] {
      NameLeTransitive(a[1..], b[1..], c[1..]);
    }
  }

  lemma {:induction false} NameLeAntisymmetric(a: string, b: string)
    requires NameLe(a, b) && NameLe(b, a)
    ensures a == b
    decreases |a|
  {
    if a != [] {
      NameLeAntisymmetric(a[1..], b[1..]);
      assert a == [a[0]] + a[1..] && b == [b[0]] + b[1..];
    }
  }
}
