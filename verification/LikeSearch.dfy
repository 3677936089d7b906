/** LIKE patterns, and the one a search box builds. */
module LikeSearch {
  import opened Wrappers
  import opened ReservedWords

  /** Whether v matches the pattern, under an escape character if one is in force. */
  predicate Like(escape: Option<char>, p: string, v: string)
    decreases |p| + |v|
  {
    if p == "" then v == ""
    else if escape == Some(p[0]) then |p| > 1 && v != "" && v[0] == p[1] && Like(escape, p[2..], v[1..])
    else if p[0] == '%' then Like(escape, p[1..], v) || (v != "" && Like(escape, p, v[1..]))
    else v != "" && (p[0] == '_' || p[0] == v[0]) && Like(escape, p[1..], v[1..])
  }

  predicate IsSpecial(c: char) { c == '%' || c == '_' || c == '\\' }

  /** Every special character preceded by a backslash. */
  function Escape(q: string): string {
    if q == "" then ""
    else (if IsSpecial(q[0]) then ['\\', q[0]] else [q[0]]) + Escape(q[1..])
  }

  /** Lower-casing, one character at a time; it neither makes nor changes a special character. */
  predicate Folds(fold: char -> char) {
    forall c: char :: (IsSpecial(fold(c)) <==> IsSpecial(c)) && (IsSpecial(c) ==> fold(c) == c)
  }

  /** ASCII lower-casing is such a fold. */
  lemma LowerCharFolds()
    ensures Folds(LowerChar)
  {
  }

  function Fold(fold: char -> char, s: string): (r: string)
    ensures |r| == |s| && forall i :: 0 <= i < |s| ==> r[i] == fold(s[i])
  {
    if s == "" then "" else [fold(s[0])] + Fold(fold, s[1..])
  }

  lemma {:induction false} FoldJoin(f: char -> char, a: string, b: string)
    ensures Fold(f, a + b) == Fold(f, a) + Fold(f, b)
    decreases |a|
  {
    if a == "" {
      assert a + b == b;
    } else {
      assert (a + b)[1..] == a[1..] + b;
      FoldJoin(f, a[1..], b);
    }
  }

  /** LIKE as a database applies it: letters that fold alike are alike. */
  predicate LikeFolded(escape: Option<char>, fold: char -> char, p: string, v: string) {
    Like(escape, Fold(fold, p), Fold(fold, v))
  }

  /** The pattern the search box binds: escape, then lower-case, then allow anything around it. */
  function SearchPattern(fold: char -> char, q: string): string {
    "%" + Fold(fold, Escape(q)) + "%"
  }

  predicate StartsAt(v: string, k: nat, t: string) {
    k + |t| <= |v| && v[k..k + |t|] == t
  }

  predicate Contains(v: string, t: string) {
    exists k: nat :: k <= |v| && StartsAt(v, k, t)
  }

  lemma {:induction false} FoldEscape(fold: char -> char, q: string)
    requires Folds(fold)
    ensures Fold(fold, Escape(q)) == Escape(Fold(fold, q))
  {
    if q != "" {
      var c := q[0];
      FoldEscape(fold, q[1..]);
      assert Fold(fold, q)[1..] == Fold(fold, q[1..]);
      if IsSpecial(c) {
        assert Escape(q) == [fold('\\'), c] + Escape(q[1..]);
        assert Escape(q)[1..][1..] == Escape(q[1..]);
      } else {
        assert Escape(q)[1..] == Escape(q[1..]);
      }
    }
  }

  lemma {:induction false} AnythingMatches(escape: Option<char>, v: string)
    requires escape != Some('%')
    ensures Like(escape, "%", v)
    decreases |v|
  {
    if v == "" {
      assert "%"[1..] == "";
    } else {
      AnythingMatches(escape, v[1..]);
    }
  }

  /** An escaped term with anything after it matches exactly the texts that start with the term. */
  lemma {:induction false} EscapedPrefix(t: string, v: string)
    ensures Like(Some('\\'), Escape(t) + "%", v) <==> StartsAt(v, 0, t)
    decreases |t|
  {
    var p := Escape(t) + "%";
    if t == "" {
      AnythingMatches(Some('\\'), v);
      assert p == "%" && v[0..0] == t;
    } else {
      var rest := Escape(t[1..]) + "%";
      assert p[if IsSpecial(t[0]) then 2 else 1..] == rest;
      if v != "" {
        EscapedPrefix(t[1..], v[1..]);
        if |t| <= |v| {
          assert v[0..|t|] == [v[0]] + v[1..][0..|t| - 1];
          assert t == [t[0]] + t[1..];
        }
      }
    }
  }

  lemma AnythingStep(escape: Option<char>, p: string, v: string)
    requires escape != Some('%')
    ensures Like(escape, "%" + p, v) <==> Like(escape, p, v) || (v != "" && Like(escape, "%" + p, v[1..]))
  {
    assert ("%" + p)[1..] == p;
  }

  lemma Tails(v: string, k: nat)
    requires 0 < k <= |v|
    ensures v[1..][k - 1..] == v[k..]
  {
  }

  lemma {:induction false} LeadingAnything(escape: Option<char>, p: string, v: string)
    requires escape != Some('%')
    ensures Like(escape, "%" + p, v) <==> exists k: nat :: k <= |v| && Like(escape, p, v[k..])
    decreases |v|
  {
    AnythingStep(escape, p, v);
    assert v[0..] == v;
    if v != "" {
      LeadingAnything(escape, p, v[1..]);
      forall k: nat | 0 < k <= |v| ensures v[1..][k - 1..] == v[k..] { Tails(v, k); }
      if Like(escape, "%" + p, v[1..]) {
        var k: nat :| k <= |v[1..]| && Like(escape, p, v[1..][k..]);
        assert v[1..][(k + 1) - 1..] == v[k + 1..];
      } else {
        forall k: nat | 0 < k <= |v| ensures !Like(escape, p, v[k..]) {
          assert !Like(escape, p, v[1..][k - 1..]);
        }
      }
    }
  }

  /**
   The search box finds exactly the column values that contain the term: for every term, with
   wildcards and backslashes in it standing for themselves.
   */
  lemma SearchFindsContaining(fold: char -> char, q: string, v: string)
    requires Folds(fold)
    ensures Like(Some('\\'), SearchPattern(fold, q), v) <==> Contains(v, Fold(fold, q))
  {
    var t := Fold(fold, q);
    FoldEscape(fold, q);
    var p := Escape(t) + "%";
    assert SearchPattern(fold, q) == "%" + p;
    LeadingAnything(Some('\\'), p, v);
    forall k: nat | k <= |v| ensures Like(Some('\\'), p, v[k..]) <==> StartsAt(v, k, t) {
      EscapedPrefix(t, v[k..]);
      if k + |t| <= |v| { assert v[k..][0..|t|] == v[k..k + |t|]; }
    }
  }
}
